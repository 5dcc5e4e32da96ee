/**
 * Turning a species' count table into cells of the result table (habitat.py
 * and representation.py): every code of df2 is decoded into a (zone,
 * season) pair, df2 is re-indexed by those pairs, and for every zone of the
 * new index's first level and every season name of its second level (both
 * sorted, as pandas keeps MultiIndex levels) the count is looked up and
 * written to the species' row for that zone.
 */
module ZoneFill {
  import opened Wrappers
  import opened StringOrder
  import opened ZoneCodes
  import opened CodeCounts
  import opened SpeciesIndex

  /** Which of the two scripts' decodings is in force. */
  datatype Script = HabitatScript | RepresentationScript

  function Decode(script: Script, code: int): Option<(int, Season)>
  {
    match script
    case HabitatScript => DecodeHabitat(code)
    case RepresentationScript => DecodeRepresentation(code)
  }

  /** A row of df2 after `set_index(["Zone", "Season"])`. */
  datatype Entry = Entry(zone: int, season: Season, count: int)

  /**
   * The Season and Zone columns of df2. Python builds both lists before
   * re-indexing, so a single code that fails to decode raises (None).
   */
  function DecodeAll(script: Script, t: CountTable): (r: Option<seq<Entry>>)
    ensures r.Some? <==> forall i :: 0 <= i < |t| ==> Decode(script, t[i].0).Some?
    ensures r.Some? ==> |r.value| == |t| && forall i :: 0 <= i < |t| ==>
              r.value[i] == Entry(Decode(script, t[i].0).value.0, Decode(script, t[i].0).value.1, t[i].1)
  {
    if forall i :: 0 <= i < |t| ==> Decode(script, t[i].0).Some? then
      Some(seq(|t|, i requires 0 <= i < |t| =>
        Entry(Decode(script, t[i].0).value.0, Decode(script, t[i].0).value.1, t[i].1)))
    else None
  }

  /** The seasons in the order of their column names, the order of a sorted level. */
  const SeasonsByName: seq<Season> := [AllYear, NonHabitat, Summer, Winter]

  lemma LessByFirst(a: string, b: string)
    requires |a| > 0 && |b| > 0 && a[0] < b[0]
    ensures Less(a, b)
  {
  }

  lemma SeasonsByNameSorted()
    ensures forall i, j :: 0 <= i < j < 4 ==> Less(ColumnName(SeasonsByName[i]), ColumnName(SeasonsByName[j]))
    ensures forall s: Season :: s in SeasonsByName
  {
    var a, n, su, w := ColumnName(AllYear), ColumnName(NonHabitat), ColumnName(Summer), ColumnName(Winter);
    assert a[0] == 'A' && n[0] == 'N' && su[0] == 'S' && w[0] == 'W';
    LessByFirst(a, n);
    LessByFirst(a, su);
    LessByFirst(a, w);
    LessByFirst(n, su);
    LessByFirst(n, w);
    LessByFirst(su, w);
    forall s: Season ensures s in SeasonsByName {
      match s
      case AllYear => assert SeasonsByName[0] == s;
      case NonHabitat => assert SeasonsByName[1] == s;
      case Summer => assert SeasonsByName[2] == s;
      case Winter => assert SeasonsByName[3] == s;
    }
  }

  predicate HasSeason(entries: seq<Entry>, s: Season)
  {
    exists i :: 0 <= i < |entries| && entries[i].season == s
  }

  predicate HasZone(entries: seq<Entry>, z: int)
  {
    exists i :: 0 <= i < |entries| && entries[i].zone == z
  }

  function SeasonsIn(entries: seq<Entry>, order: seq<Season>): (r: seq<Season>)
    ensures forall s :: s in r <==> s in order && HasSeason(entries, s)
    ensures |r| <= |order|
  {
    if order == [] then []
    else (if HasSeason(entries, order[0]) then [order[0]] else []) + SeasonsIn(entries, order[1..])
  }

  /** The second level of df2's index: the season names present, sorted. */
  function SeasonLevel(entries: seq<Entry>): (r: seq<Season>)
    ensures forall s :: s in r <==> HasSeason(entries, s)
  {
    SeasonsByNameSorted();
    SeasonsIn(entries, SeasonsByName)
  }

  predicate Increasing(s: seq<int>)
  {
    forall i, j :: 0 <= i < j < |s| ==> s[i] < s[j]
  }

  /** Inserts x into a strictly increasing list unless it is already there. */
  function InsertZone(x: int, s: seq<int>): (r: seq<int>)
    requires Increasing(s)
    ensures Increasing(r)
    ensures forall y :: y in r <==> y == x || y in s
  {
    if s == [] then [x]
    else if x < s[0] then [x] + s
    else if x == s[0] then s
    else
      var r := InsertZone(x, s[1..]);
      assert forall y :: y in s <==> y == s[0] || y in s[1..];
      assert forall y :: y in s[1..] ==> s[0] < y;
      assert forall i :: 0 <= i < |r| ==> s[0] < r[i] by {
        forall i | 0 <= i < |r| ensures s[0] < r[i] {
          assert r[i] in r;
        }
      }
      [s[0]] + r
  }

  function ZonesOf(entries: seq<Entry>): (zs: seq<int>)
    ensures |zs| == |entries| && forall i :: 0 <= i < |zs| ==> zs[i] == entries[i].zone
  {
    seq(|entries|, i requires 0 <= i < |entries| => entries[i].zone)
  }

  function SortedDistinct(s: seq<int>): (r: seq<int>)
    ensures Increasing(r)
    ensures forall y :: y in r <==> y in s
  {
    if s == [] then []
    else
      var r := InsertZone(s[|s| - 1], SortedDistinct(s[..|s| - 1]));
      assert forall y :: y in s <==> y == s[|s| - 1] || y in s[..|s| - 1] by {
        assert s == s[..|s| - 1] + [s[|s| - 1]];
      }
      r
  }

  /** The first level of df2's index: the zones present, sorted and without repeats. */
  function ZoneLevel(entries: seq<Entry>): (r: seq<int>)
    ensures Increasing(r)
    ensures forall z :: z in r <==> HasZone(entries, z)
  {
    var r := SortedDistinct(ZonesOf(entries));
    assert forall z :: z in ZonesOf(entries) <==> HasZone(entries, z) by {
      forall z ensures z in ZonesOf(entries) <==> HasZone(entries, z) {
        if HasZone(entries, z) {
          var i :| 0 <= i < |entries| && entries[i].zone == z;
          assert ZonesOf(entries)[i] == z;
        }
      }
    }
    r
  }

  /** df2Index: every (zone, season) of the two levels, zone by zone. */
  function Product(zs: seq<int>, ss: seq<Season>): (r: seq<(int, Season)>)
    ensures forall z, s :: (z, s) in r <==> z in zs && s in ss
  {
    if zs == [] then []
    else
      var head := seq(|ss|, j requires 0 <= j < |ss| => (zs[0], ss[j]));
      var r := head + Product(zs[1..], ss);
      assert forall z, s :: (z, s) in head <==> z == zs[0] && s in ss by {
        forall z, s | z == zs[0] && s in ss ensures (z, s) in head {
          var j :| 0 <= j < |ss| && ss[j] == s;
          assert head[j] == (z, s);
        }
      }
      assert forall z :: z in zs <==> z == zs[0] || z in zs[1..];
      r
  }

  function LevelPairs(entries: seq<Entry>): (r: seq<(int, Season)>)
    ensures forall z, s :: (z, s) in r <==> HasZone(entries, z) && HasSeason(entries, s)
  {
    Product(ZoneLevel(entries), SeasonLevel(entries))
  }

  /** The counts of the entries labelled (z, s), in order. */
  function Matches(entries: seq<Entry>, z: int, s: Season): (r: seq<int>)
    ensures |r| <= |entries|
    ensures |r| == 0 <==> forall i :: 0 <= i < |entries| ==> (entries[i].zone, entries[i].season) != (z, s)
  {
    if entries == [] then []
    else
      var rest := Matches(entries[1..], z, s);
      assert forall i :: 1 <= i < |entries| ==> entries[i] == entries[1..][i - 1];
      (if (entries[0].zone, entries[0].season) == (z, s) then [entries[0].count] else []) + rest
  }

  /**
   * `int(df2.loc[(z, s)])`: the count of the single entry with that label.
   * A missing label is a KeyError and a repeated one a TypeError (int() of a
   * frame); both are None.
   */
  function Lookup(entries: seq<Entry>, z: int, s: Season): Option<int>
  {
    var m := Matches(entries, z, s);
    if |m| == 1 then Some(m[0]) else None
  }

  /**
   * The cells the fill loop writes before it stops: one per pair in order,
   * up to the first pair whose lookup raises; complete when none did.
   */
  datatype Plan = Plan(cells: seq<(int, Season, int)>, complete: bool)

  function PlanFrom(entries: seq<Entry>, pairs: seq<(int, Season)>): Plan
  {
    if pairs == [] then Plan([], true)
    else
      var (z, s) := pairs[0];
      match Lookup(entries, z, s)
      case None => Plan([], false)
      case Some(c) =>
        var p := PlanFrom(entries, pairs[1..]);
        Plan([(z, s, c)] + p.cells, p.complete)
  }

  /**
   * The plan writes one cell per pair, in order, with the value its lookup
   * found; it is complete exactly when it covers every pair, and otherwise
   * the next pair's lookup is the one that raised.
   */
  lemma {:induction false} PlanFromSpec(entries: seq<Entry>, pairs: seq<(int, Season)>)
    ensures var p := PlanFrom(entries, pairs);
      && |p.cells| <= |pairs|
      && (forall i :: 0 <= i < |p.cells| ==>
            Lookup(entries, pairs[i].0, pairs[i].1).Some? &&
            p.cells[i] == (pairs[i].0, pairs[i].1, Lookup(entries, pairs[i].0, pairs[i].1).value))
      && (p.complete <==> |p.cells| == |pairs|)
      && (!p.complete ==> Lookup(entries, pairs[|p.cells|].0, pairs[|p.cells|].1).None?)
  {
    if pairs != [] && Lookup(entries, pairs[0].0, pairs[0].1).Some? {
      PlanFromSpec(entries, pairs[1..]);
      var p := PlanFrom(entries, pairs);
      forall i | 1 <= i < |p.cells| ensures p.cells[i] == (pairs[i].0, pairs[i].1, Lookup(entries, pairs[i].0, pairs[i].1).value) {
        assert pairs[1..][i - 1] == pairs[i];
      }
    }
  }

  function FillPlan(entries: seq<Entry>): Plan
  {
    PlanFrom(entries, LevelPairs(entries))
  }

  /** The four pixel-count columns of a result row; None is NaN. */
  datatype Counts = Counts(nonHabitat: Option<int>, summer: Option<int>, winter: Option<int>, allYear: Option<int>)

  function Get(c: Counts, s: Season): Option<int>
  {
    match s
    case NonHabitat => c.nonHabitat
    case Summer => c.summer
    case Winter => c.winter
    case AllYear => c.allYear
  }

  /** No present count of c is negative, as in a well-formed attribute table. */
  predicate NonNegative(c: Counts)
  {
    && (c.nonHabitat.Some? ==> c.nonHabitat.value >= 0)
    && (c.summer.Some? ==> c.summer.value >= 0)
    && (c.winter.Some? ==> c.winter.value >= 0)
    && (c.allYear.Some? ==> c.allYear.value >= 0)
  }

  function Put(c: Counts, s: Season, v: Option<int>): (r: Counts)
    ensures Get(r, s) == v
    ensures forall s' :: s' != s ==> Get(r, s') == Get(c, s')
  {
    match s
    case NonHabitat => c.(nonHabitat := v)
    case Summer => c.(summer := v)
    case Winter => c.(winter := v)
    case AllYear => c.(allYear := v)
  }

  const ZeroCounts := Counts(Some(0), Some(0), Some(0), Some(0))
  const NoCounts := Counts(None, None, None, None)

  /** A row of df1, indexed by (GeoTiff, Zone). */
  datatype ZoneRow = ZoneRow(species: string, zone: int, counts: Counts)

  predicate HasRow(rows: seq<ZoneRow>, sp: string, z: int)
  {
    exists i :: 0 <= i < |rows| && rows[i].species == sp && rows[i].zone == z
  }

  /**
   * `df1.loc[(sp, z), column(s)] = v`: every row labelled (sp, z) takes v in
   * that column; a missing label is appended with NaN in the other columns.
   */
  function SetCell(rows: seq<ZoneRow>, sp: string, z: int, s: Season, v: int): (r: seq<ZoneRow>)
    ensures HasRow(rows, sp, z) ==> |r| == |rows|
    ensures !HasRow(rows, sp, z) ==> r == rows + [ZoneRow(sp, z, Put(NoCounts, s, Some(v)))]
    ensures forall i :: 0 <= i < |rows| ==>
              r[i] == if rows[i].species == sp && rows[i].zone == z
                      then rows[i].(counts := Put(rows[i].counts, s, Some(v))) else rows[i]
  {
    if HasRow(rows, sp, z) then
      seq(|rows|, i requires 0 <= i < |rows| =>
        if rows[i].species == sp && rows[i].zone == z then rows[i].(counts := Put(rows[i].counts, s, Some(v))) else rows[i])
    else rows + [ZoneRow(sp, z, Put(NoCounts, s, Some(v)))]
  }

  function ApplyCells(rows: seq<ZoneRow>, sp: string, cells: seq<(int, Season, int)>): seq<ZoneRow>
    decreases |cells|
  {
    if cells == [] then rows else ApplyCells(SetCell(rows, sp, cells[0].0, cells[0].1, cells[0].2), sp, cells[1..])
  }

  lemma {:induction false} ApplyCellsSnoc(rows: seq<ZoneRow>, sp: string, cells: seq<(int, Season, int)>, c: (int, Season, int))
    ensures ApplyCells(rows, sp, cells + [c]) == SetCell(ApplyCells(rows, sp, cells), sp, c.0, c.1, c.2)
    decreases |cells|
  {
    if cells != [] {
      assert (cells + [c])[1..] == cells[1..] + [c];
      ApplyCellsSnoc(SetCell(rows, sp, cells[0].0, cells[0].1, cells[0].2), sp, cells[1..], c);
    } else {
      assert [c][1..] == [];
    }
  }

  /** The rows of df1 before any species is filled: the result index, every count 0. */
  function InitialRows(spp: seq<string>, zones: seq<int>): (rows: seq<ZoneRow>)
    ensures |rows| == |IndexPairs(spp, zones)|
    ensures forall i :: 0 <= i < |rows| ==>
              rows[i] == ZoneRow(IndexPairs(spp, zones)[i].0, IndexPairs(spp, zones)[i].1, ZeroCounts)
  {
    var pairs := IndexPairs(spp, zones);
    seq(|pairs|, i requires 0 <= i < |pairs| => ZoneRow(pairs[i].0, pairs[i].1, ZeroCounts))
  }

  /** The multi-species result table df1, filled in place species by species. */
  class ZoneFrame {
    var rows: seq<ZoneRow>

    constructor (spp: seq<string>, zones: seq<int>)
      ensures rows == InitialRows(spp, zones)
    {
      rows := InitialRows(spp, zones);
    }

    /**
     * The loop over df2Index: look each (zone, season) up in df2 and write
     * it to the species' row, stopping at the first lookup that raises
     * (complete is then false and the cells written so far stay).
     */
    method FillSpecies(sp: string, entries: seq<Entry>) returns (complete: bool)
      modifies this
      ensures complete == FillPlan(entries).complete
      ensures rows == ApplyCells(old(rows), sp, FillPlan(entries).cells)
    {
      complete := FillPairs(sp, entries, LevelPairs(entries));
    }

    method FillPairs(sp: string, entries: seq<Entry>, pairs: seq<(int, Season)>) returns (complete: bool)
      modifies this
      ensures complete == PlanFrom(entries, pairs).complete
      ensures rows == ApplyCells(old(rows), sp, PlanFrom(entries, pairs).cells)
    {
      ghost var done: seq<(int, Season, int)> := [];
      var i := 0;
      while i < |pairs|
        invariant 0 <= i <= |pairs|
        invariant rows == ApplyCells(old(rows), sp, done)
        invariant PlanSoFar(entries, pairs, i, done)
      {
        var p := pairs[i];
        var found := Lookup(entries, p.0, p.1);
        if found.None? {
          PlanMissing(entries, pairs, i, done);
          return false;
        }
        PlanFound(entries, pairs, i, done, found.value);
        ApplyCellsSnoc(old(rows), sp, done, (p.0, p.1, found.value));
        rows := SetCell(rows, sp, p.0, p.1, found.value);
        done := done + [(p.0, p.1, found.value)];
        i := i + 1;
      }
      PlanDone(entries, pairs, done);
      complete := true;
    }
  }

  /** How far the fill loop has got: done holds the cells it wrote for pairs[..i]. */
  ghost predicate PlanSoFar(entries: seq<Entry>, pairs: seq<(int, Season)>, i: nat, done: seq<(int, Season, int)>)
    requires i <= |pairs|
  {
    PlanFrom(entries, pairs) == Plan(done + PlanFrom(entries, pairs[i..]).cells, PlanFrom(entries, pairs[i..]).complete)
  }

  lemma PlanFound(entries: seq<Entry>, pairs: seq<(int, Season)>, i: nat, done: seq<(int, Season, int)>, c: int)
    requires i < |pairs| && PlanSoFar(entries, pairs, i, done)
    requires Lookup(entries, pairs[i].0, pairs[i].1) == Some(c)
    ensures PlanSoFar(entries, pairs, i + 1, done + [(pairs[i].0, pairs[i].1, c)])
  {
    var rest := PlanFrom(entries, pairs[i + 1..]);
    assert pairs[i..][1..] == pairs[i + 1..];
    assert PlanFrom(entries, pairs[i..]) == Plan([(pairs[i].0, pairs[i].1, c)] + rest.cells, rest.complete);
    assert done + ([(pairs[i].0, pairs[i].1, c)] + rest.cells) == (done + [(pairs[i].0, pairs[i].1, c)]) + rest.cells;
  }

  lemma PlanMissing(entries: seq<Entry>, pairs: seq<(int, Season)>, i: nat, done: seq<(int, Season, int)>)
    requires i < |pairs| && PlanSoFar(entries, pairs, i, done)
    requires Lookup(entries, pairs[i].0, pairs[i].1).None?
    ensures PlanFrom(entries, pairs) == Plan(done, false)
  {
    assert PlanFrom(entries, pairs[i..]) == Plan([], false);
    assert done + [] == done;
  }

  lemma PlanDone(entries: seq<Entry>, pairs: seq<(int, Season)>, done: seq<(int, Season, int)>)
    requires PlanSoFar(entries, pairs, |pairs|, done)
    ensures PlanFrom(entries, pairs) == Plan(done, true)
  {
    assert pairs[|pairs|..] == [];
    assert done + [] == done;
  }

  /** A label that only entry j carries is looked up as that entry's count. */
  lemma {:induction false} MatchesSingle(entries: seq<Entry>, j: nat)
    requires j < |entries|
    requires forall i :: 0 <= i < |entries| && i != j ==>
               (entries[i].zone, entries[i].season) != (entries[j].zone, entries[j].season)
    ensures Matches(entries, entries[j].zone, entries[j].season) == [entries[j].count]
  {
    var z, s := entries[j].zone, entries[j].season;
    var rest := entries[1..];
    if j == 0 {
      assert forall i :: 0 <= i < |rest| ==> (rest[i].zone, rest[i].season) != (z, s) by {
        forall i | 0 <= i < |rest| ensures (rest[i].zone, rest[i].season) != (z, s) {
          assert rest[i] == entries[i + 1];
        }
      }
    } else {
      assert rest[j - 1] == entries[j];
      forall i | 0 <= i < |rest| && i != j - 1
        ensures (rest[i].zone, rest[i].season) != (rest[j - 1].zone, rest[j - 1].season)
      {
        assert rest[i] == entries[i + 1];
      }
      MatchesSingle(rest, j - 1);
    }
  }

  /** df2 decoded without failure on the expected index: entry 4i + k is zone i's class k. */
  function ExpectedEntries(zones: seq<int>, t: CountTable): (entries: seq<Entry>)
    requires |t| == 4 * |zones|
    ensures |entries| == |t|
  {
    seq(|t|, j requires 0 <= j < |t| => Entry(zones[j / 4], SeasonOf(j % 4).value, t[j].1))
  }

  predicate ZonesAllowed(script: Script, zones: seq<int>)
  {
    forall i :: 0 <= i < |zones| ==> if script == HabitatScript then zones[i] >= 0 else zones[i] >= 1
  }

  /**
   * On the expected index every code decodes (a habitat zone may be 0, a
   * representation zone must be at least 1) into its zone and class.
   */
  lemma DecodeExpected(script: Script, zones: seq<int>, t: CountTable)
    requires ZonesAllowed(script, zones)
    requires |t| == 4 * |zones| && forall j :: 0 <= j < |t| ==> t[j].0 == ExpectedCodes(zones)[j]
    ensures DecodeAll(script, t) == Some(ExpectedEntries(zones, t))
  {
    forall j | 0 <= j < |t| ensures Decode(script, t[j].0) == Some((zones[j / 4], SeasonOf(j % 4).value)) {
      if script == HabitatScript {
        HabitatRoundTrip(zones[j / 4], j % 4);
      } else {
        RepresentationRoundTrip(zones[j / 4], j % 4);
      }
    }
    var d, e := DecodeAll(script, t), ExpectedEntries(zones, t);
    assert d.Some?;
    assert forall j :: 0 <= j < |t| ==> d.value[j] == e[j];
    assert d.value == e;
  }

  /** With distinct zones, every (zone, season) label of the expected entries occurs once. */
  lemma LookupExpected(zones: seq<int>, t: CountTable, i: nat, s: Season)
    requires Distinct(zones) && |t| == 4 * |zones| && i < |zones|
    ensures 4 * i + SeasonCode(s) < |t|
    ensures Lookup(ExpectedEntries(zones, t), zones[i], s) == Some(t[4 * i + SeasonCode(s)].1)
  {
    var entries := ExpectedEntries(zones, t);
    var j := 4 * i + SeasonCode(s);
    assert j / 4 == i && j % 4 == SeasonCode(s);
    forall l | 0 <= l < |entries| && l != j
      ensures (entries[l].zone, entries[l].season) != (entries[j].zone, entries[j].season)
    {
      if l / 4 == i {
        assert l % 4 != j % 4;
      }
    }
    MatchesSingle(entries, j);
  }

  function CellLabels(cells: seq<(int, Season, int)>): (ls: seq<(int, Season)>)
    ensures |ls| == |cells| && forall k :: 0 <= k < |cells| ==> ls[k] == (cells[k].0, cells[k].1)
  {
    seq(|cells|, k requires 0 <= k < |cells| => (cells[k].0, cells[k].1))
  }

  /** The labels present among the expected entries are those of the listed zones, with every class. */
  lemma ExpectedLabels(zones: seq<int>, t: CountTable, z: int, s: Season)
    requires |t| == 4 * |zones|
    ensures HasZone(ExpectedEntries(zones, t), z) <==> z in zones
    ensures z in zones ==> HasSeason(ExpectedEntries(zones, t), s)
  {
    var entries := ExpectedEntries(zones, t);
    if z in zones {
      var i :| 0 <= i < |zones| && zones[i] == z;
      var j := 4 * i + SeasonCode(s);
      assert j / 4 == i && j % 4 == SeasonCode(s);
      assert entries[j].zone == z && entries[j].season == s;
    }
    if HasZone(entries, z) {
      var l :| 0 <= l < |entries| && entries[l].zone == z;
      assert zones[l / 4] == z;
    }
  }

  /**
   * With distinct zones and no unexpected code, the fill loop completes; it
   * writes a cell for every listed zone with every class, only for listed
   * zones, and each cell holds the count df2 has for that zone's code.
   */
  lemma FillExpected(zones: seq<int>, t: CountTable)
    requires Distinct(zones) && |t| == 4 * |zones|
    ensures FillPlan(ExpectedEntries(zones, t)).complete
    ensures forall z, s :: (z, s) in CellLabels(FillPlan(ExpectedEntries(zones, t)).cells) <==> z in zones
    ensures forall i, k ::
              (0 <= i < |zones| && 0 <= k < |FillPlan(ExpectedEntries(zones, t)).cells| &&
               FillPlan(ExpectedEntries(zones, t)).cells[k].0 == zones[i]) ==>
              FillPlan(ExpectedEntries(zones, t)).cells[k].2 == t[4 * i + SeasonCode(FillPlan(ExpectedEntries(zones, t)).cells[k].1)].1
  {
    FillExpectedLabels(zones, t);
    CellsExpected(zones, t);
  }

  /** On the expected entries the fill loop completes, writing one cell per pair of its index. */
  lemma FillExpectedLabels(zones: seq<int>, t: CountTable)
    requires Distinct(zones) && |t| == 4 * |zones|
    ensures FillPlan(ExpectedEntries(zones, t)).complete
    ensures CellLabels(FillPlan(ExpectedEntries(zones, t)).cells) == LevelPairs(ExpectedEntries(zones, t))
    ensures forall z, s :: (z, s) in LevelPairs(ExpectedEntries(zones, t)) <==> z in zones
  {
    var entries := ExpectedEntries(zones, t);
    var pairs := LevelPairs(entries);
    var p := FillPlan(entries);
    PlanFromSpec(entries, pairs);
    forall z, s ensures (z, s) in pairs <==> z in zones {
      ExpectedLabels(zones, t, z, s);
    }
    if !p.complete {
      var (z, s) := pairs[|p.cells|];
      assert (z, s) in pairs;
      var i :| 0 <= i < |zones| && zones[i] == z;
      LookupExpected(zones, t, i, s);
    }
    assert CellLabels(p.cells) == pairs;
  }

  lemma CellsExpected(zones: seq<int>, t: CountTable)
    requires Distinct(zones) && |t| == 4 * |zones|
    ensures forall i, k ::
              (0 <= i < |zones| && 0 <= k < |FillPlan(ExpectedEntries(zones, t)).cells| &&
               FillPlan(ExpectedEntries(zones, t)).cells[k].0 == zones[i]) ==>
              FillPlan(ExpectedEntries(zones, t)).cells[k].2 == t[4 * i + SeasonCode(FillPlan(ExpectedEntries(zones, t)).cells[k].1)].1
  {
    forall i, k | 0 <= i < |zones| && 0 <= k < |FillPlan(ExpectedEntries(zones, t)).cells| &&
                  FillPlan(ExpectedEntries(zones, t)).cells[k].0 == zones[i]
      ensures FillPlan(ExpectedEntries(zones, t)).cells[k].2 == t[4 * i + SeasonCode(FillPlan(ExpectedEntries(zones, t)).cells[k].1)].1
    {
      CellExpected(zones, t, i, k, FillPlan(ExpectedEntries(zones, t)).cells[k].1);
    }
  }

  /** A cell the fill loop writes for zone i and class s holds df2's count for that zone's code of s. */
  lemma CellExpected(zones: seq<int>, t: CountTable, i: nat, k: nat, s: Season)
    requires Distinct(zones) && |t| == 4 * |zones| && i < |zones|
    requires k < |FillPlan(ExpectedEntries(zones, t)).cells|
    requires FillPlan(ExpectedEntries(zones, t)).cells[k].0 == zones[i] && FillPlan(ExpectedEntries(zones, t)).cells[k].1 == s
    ensures 4 * i + SeasonCode(s) < |t|
    ensures FillPlan(ExpectedEntries(zones, t)).cells[k].2 == t[4 * i + SeasonCode(s)].1
  {
    var entries := ExpectedEntries(zones, t);
    var pairs := LevelPairs(entries);
    var p := FillPlan(entries);
    PlanFromSpec(entries, pairs);
    LookupExpected(zones, t, i, s);
    assert p.cells[k] == (pairs[k].0, pairs[k].1, Lookup(entries, pairs[k].0, pairs[k].1).value);
  }

  /** The value of the last cell labelled (z, s), or None when there is none. */
  function LastCell(cells: seq<(int, Season, int)>, z: int, s: Season): (r: Option<int>)
    ensures r.None? <==> (z, s) !in CellLabels(cells)
  {
    if cells == [] then None
    else
      assert CellLabels(cells) == [(cells[0].0, cells[0].1)] + CellLabels(cells[1..]);
      match LastCell(cells[1..], z, s)
      case Some(v) => Some(v)
      case None => if (cells[0].0, cells[0].1) == (z, s) then Some(cells[0].2) else None
  }

  /** When every cell labelled (z, s) holds c and one does, the last one holds c. */
  lemma {:induction false} LastCellUniform(cells: seq<(int, Season, int)>, z: int, s: Season, c: int)
    requires (z, s) in CellLabels(cells)
    requires forall k :: 0 <= k < |cells| && cells[k].0 == z && cells[k].1 == s ==> cells[k].2 == c
    ensures LastCell(cells, z, s) == Some(c)
  {
    assert CellLabels(cells) == [(cells[0].0, cells[0].1)] + CellLabels(cells[1..]);
    if (z, s) in CellLabels(cells[1..]) {
      forall k | 0 <= k < |cells[1..]| && cells[1..][k].0 == z && cells[1..][k].1 == s ensures cells[1..][k].2 == c {
        assert cells[1..][k] == cells[k + 1];
      }
      LastCellUniform(cells[1..], z, s, c);
    }
  }

  /** The column s of a row for zone z after the cells: the last value written, else the old one. */
  function Pick(w: Option<int>, current: Option<int>): Option<int>
  {
    if w.Some? then w else current
  }

  function Written(c: Counts, cells: seq<(int, Season, int)>, z: int): (r: Counts)
    ensures forall s :: Get(r, s) == Pick(LastCell(cells, z, s), Get(c, s))
  {
    var r := Counts(WrittenAt(c, cells, z, NonHabitat), WrittenAt(c, cells, z, Summer),
                    WrittenAt(c, cells, z, Winter), WrittenAt(c, cells, z, AllYear));
    assert forall s :: Get(r, s) == WrittenAt(c, cells, z, s) by {
      forall s ensures Get(r, s) == WrittenAt(c, cells, z, s) {
        if s.NonHabitat? {
          assert Get(r, s) == r.nonHabitat;
        } else if s.Summer? {
          assert Get(r, s) == r.summer;
        } else if s.Winter? {
          assert Get(r, s) == r.winter;
        } else {
          assert Get(r, s) == r.allYear;
        }
      }
    }
    r
  }

  /** One column of Written: the last value written to zone z in season s, or the old one. */
  function WrittenAt(c: Counts, cells: seq<(int, Season, int)>, z: int, s: Season): Option<int>
  {
    Pick(LastCell(cells, z, s), Get(c, s))
  }

  lemma CountsEqual(a: Counts, b: Counts)
    requires forall s :: Get(a, s) == Get(b, s)
    ensures a == b
  {
    assert Get(a, NonHabitat) == Get(b, NonHabitat) && Get(a, Summer) == Get(b, Summer);
    assert Get(a, Winter) == Get(b, Winter) && Get(a, AllYear) == Get(b, AllYear);
  }

  lemma WrittenCons(c: Counts, cells: seq<(int, Season, int)>, z: int)
    requires cells != []
    ensures Written(c, cells, z) ==
            Written(if cells[0].0 == z then Put(c, cells[0].1, Some(cells[0].2)) else c, cells[1..], z)
  {
    var c' := if cells[0].0 == z then Put(c, cells[0].1, Some(cells[0].2)) else c;
    forall s ensures Get(Written(c, cells, z), s) == Get(Written(c', cells[1..], z), s) {
      WrittenAtCons(c, cells, z, s);
    }
    CountsEqual(Written(c, cells, z), Written(c', cells[1..], z));
  }

  lemma WrittenAtCons(c: Counts, cells: seq<(int, Season, int)>, z: int, s: Season)
    requires cells != []
    ensures WrittenAt(c, cells, z, s) ==
            WrittenAt(if cells[0].0 == z then Put(c, cells[0].1, Some(cells[0].2)) else c, cells[1..], z, s)
  {
  }

  /**
   * Applying cells whose rows all exist keeps the table's rows and their
   * order; each row of the species ends with, per column, the last value a
   * cell wrote to its zone (or its old value), and other rows do not change.
   */
  lemma {:induction false} ApplyCellsEffect(rows: seq<ZoneRow>, sp: string, cells: seq<(int, Season, int)>)
    requires forall k :: 0 <= k < |cells| ==> HasRow(rows, sp, cells[k].0)
    ensures |ApplyCells(rows, sp, cells)| == |rows|
    ensures forall i :: 0 <= i < |rows| ==>
              ApplyCells(rows, sp, cells)[i] ==
              (if rows[i].species == sp then rows[i].(counts := Written(rows[i].counts, cells, rows[i].zone)) else rows[i])
    decreases |cells|
  {
    if cells == [] {
      forall i | 0 <= i < |rows| ensures rows[i].counts == Written(rows[i].counts, cells, rows[i].zone) {
        CountsEqual(rows[i].counts, Written(rows[i].counts, cells, rows[i].zone));
      }
    } else {
      var next := SetCell(rows, sp, cells[0].0, cells[0].1, cells[0].2);
      forall k | 0 <= k < |cells[1..]| ensures HasRow(next, sp, cells[1..][k].0) {
        assert cells[1..][k] == cells[k + 1];
        var j :| 0 <= j < |rows| && rows[j].species == sp && rows[j].zone == cells[k + 1].0;
        assert next[j].species == sp && next[j].zone == cells[k + 1].0;
      }
      ApplyCellsEffect(next, sp, cells[1..]);
      forall i | 0 <= i < |rows| && rows[i].species == sp
        ensures Written(next[i].counts, cells[1..], rows[i].zone) == Written(rows[i].counts, cells, rows[i].zone)
      {
        WrittenCons(rows[i].counts, cells, rows[i].zone);
      }
    }
  }
}
