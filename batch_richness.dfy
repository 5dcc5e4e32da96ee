/**
 * Batched species richness (gapbap/richness.py, CalculateRichness): the
 * species list is cut into batches of `interval` species; each species'
 * map is copied (value 0 becomes NoData) and reclassified to 1 where its
 * value meets the season's clause and NoData elsewhere; each batch is
 * summed with CellStatistics SUM "DATA", and the batch sums are summed
 * the same way into the final richness raster.
 *
 * The extent is the union of the inputs ("MAXOF"): a raster is its cells
 * from the shared grid origin, and every cell past its end is NoData.
 */
module BatchRichness {
  import opened Wrappers
  import opened PyText

  type Grid = seq<Option<int>>

  function At(g: Grid, i: int): Option<int>
  {
    if 0 <= i < |g| then g[i] else None
  }

  // ------------------------------------------------------------- where clauses

  predicate ValidSeason(season: string)
  {
    season == "Summer" || season == "Winter" || season == "Any"
  }

  /** The where clause of the season: `VALUE = 1 OR VALUE = 3`, `VALUE = 2 OR VALUE = 3`, `VALUE > 0`. */
  predicate Holds(season: string, v: int)
  {
    if season == "Summer" then v == 1 || v == 3
    else if season == "Winter" then v == 2 || v == 3
    else if season == "Any" then v > 0
    else false
  }

  /** Year-round habitat (3) is the one value in both seasons, and either season's habitat counts for "Any". */
  lemma SeasonClauses(v: int)
    ensures Holds("Summer", v) && Holds("Winter", v) <==> v == 3
    ensures Holds("Summer", v) || Holds("Winter", v) ==> Holds("Any", v)
    ensures 0 <= v <= 3 ==> (Holds("Any", v) <==> Holds("Summer", v) || Holds("Winter", v))
  {
  }

  /** CopyRaster with `nodata_value=0`. */
  function Copied(g: Grid): (r: Grid)
    ensures |r| == |g| && forall i :: 0 <= i < |g| ==> r[i] == if g[i] == Some(0) then None else g[i]
  {
    seq(|g|, i requires 0 <= i < |g| => if g[i] == Some(0) then None else g[i])
  }

  /** `Con(sp, 1, where_clause=wc)`: 1 where the clause holds, NoData elsewhere. */
  function Reclassed(g: Grid, season: string): Grid
  {
    seq(|g|, i requires 0 <= i < |g| => if g[i].Some? && Holds(season, g[i].value) then Some(1) else None)
  }

  lemma ReclassedAt(g: Grid, season: string, i: int)
    ensures At(Reclassed(g, season), i) == if At(g, i).Some? && Holds(season, At(g, i).value) then Some(1) else None
  {
  }

  // --------------------------------------------------------- SUM "DATA"

  /** SUM ignoring NoData: NoData only where every input is NoData. */
  function Combine(a: Option<int>, b: Option<int>): (r: Option<int>)
    ensures r.None? <==> a.None? && b.None?
  {
    if a.None? then b else if b.None? then a else Some(a.value + b.value)
  }

  function CellSum(gs: seq<Grid>, i: int): Option<int>
  {
    if gs == [] then None else Combine(At(gs[0], i), CellSum(gs[1..], i))
  }

  function MaxLen(gs: seq<Grid>): (n: nat)
    ensures forall k :: 0 <= k < |gs| ==> |gs[k]| <= n
    ensures gs != [] ==> exists k :: 0 <= k < |gs| && |gs[k]| == n
  {
    if gs == [] then 0
    else
      var m := MaxLen(gs[1..]);
      assert forall k :: 1 <= k < |gs| ==> gs[k] == gs[1..][k - 1];
      if |gs[0]| >= m then |gs[0]| else m
  }

  /** CellStatistics(gs, "SUM", "DATA") over the union extent. */
  function SumData(gs: seq<Grid>): Grid
  {
    seq(MaxLen(gs), i requires 0 <= i < MaxLen(gs) => CellSum(gs, i))
  }

  lemma {:induction false} CellSumBeyond(gs: seq<Grid>, i: int)
    requires i < 0 || i >= MaxLen(gs)
    ensures CellSum(gs, i) == None
  {
    if gs != [] {
      assert forall k :: 0 <= k < |gs[1..]| ==> gs[1..][k] == gs[k + 1];
      CellSumBeyond(gs[1..], i);
    }
  }

  /** Every cell of the sum, inside the union extent or not, is the SUM "DATA" of the inputs' cells. */
  lemma SumDataAt(gs: seq<Grid>, i: int)
    ensures At(SumData(gs), i) == CellSum(gs, i)
  {
    if i < 0 || i >= MaxLen(gs) {
      CellSumBeyond(gs, i);
    }
  }

  lemma CombineAssociates(a: Option<int>, b: Option<int>, c: Option<int>)
    ensures Combine(a, Combine(b, c)) == Combine(Combine(a, b), c)
  {
  }

  lemma {:induction false} CellSumConcat(a: seq<Grid>, b: seq<Grid>, i: int)
    ensures CellSum(a + b, i) == Combine(CellSum(a, i), CellSum(b, i))
  {
    if a != [] {
      assert (a + b)[1..] == a[1..] + b;
      CellSumConcat(a[1..], b, i);
      CombineAssociates(At(a[0], i), CellSum(a[1..], i), CellSum(b, i));
    } else {
      assert a + b == b;
    }
  }

  // ------------------------------------------------------------ one batch

  /** `sppLocal`: the batch's species whose copy succeeded, lower-cased, with their copied maps. */
  function Local(s: seq<string>, c: seq<Option<Grid>>): seq<(string, Grid)>
    requires |s| == |c|
    decreases |s|
  {
    if s == [] then []
    else
      var n := |s| - 1;
      Local(s[..n], c[..n]) + (if c[n].Some? then [(Lower(s[n]), Copied(c[n].value))] else [])
  }

  /** A species is in `sppLocal` exactly when its copy succeeded. */
  lemma {:induction false} LocalMembers(s: seq<string>, c: seq<Option<Grid>>)
    requires |s| == |c|
    ensures forall k :: 0 <= k < |s| && c[k].Some? ==> (Lower(s[k]), Copied(c[k].value)) in Local(s, c)
    ensures forall e :: e in Local(s, c) ==> exists k :: 0 <= k < |s| && c[k].Some? && e == (Lower(s[k]), Copied(c[k].value))
    decreases |s|
  {
    if s != [] {
      var n := |s| - 1;
      LocalMembers(s[..n], c[..n]);
      forall e | e in Local(s, c) ensures exists k :: 0 <= k < |s| && c[k].Some? && e == (Lower(s[k]), Copied(c[k].value)) {
        if e in Local(s[..n], c[..n]) {
          var k :| 0 <= k < n && c[..n][k].Some? && e == (Lower(s[..n][k]), Copied(c[..n][k].value));
          assert s[..n][k] == s[k] && c[..n][k] == c[k];
        }
      }
      forall k | 0 <= k < |s| && c[k].Some? ensures (Lower(s[k]), Copied(c[k].value)) in Local(s, c) {
        if k < n {
          assert s[..n][k] == s[k] && c[..n][k] == c[k];
        }
      }
    }
  }

  lemma {:induction false} LocalConcat(s1: seq<string>, c1: seq<Option<Grid>>, s2: seq<string>, c2: seq<Option<Grid>>)
    requires |s1| == |c1| && |s2| == |c2|
    ensures Local(s1 + s2, c1 + c2) == Local(s1, c1) + Local(s2, c2)
    decreases |s2|
  {
    if s2 != [] {
      var n := |s2| - 1;
      assert (s1 + s2)[..|s1 + s2| - 1] == s1 + s2[..n];
      assert (c1 + c2)[..|c1 + c2| - 1] == c1 + c2[..n];
      LocalConcat(s1, c1, s2[..n], c2[..n]);
    } else {
      assert s1 + s2 == s1 && c1 + c2 == c1;
    }
  }

  /** `sppReclassed`: with an unknown season `wc` is unbound and every species' reclass raises. */
  function Reclass(local: seq<(string, Grid)>, season: string): (r: seq<(string, Grid)>)
    ensures ValidSeason(season) ==> |r| == |local| && forall k :: 0 <= k < |local| ==> r[k] == (local[k].0, Reclassed(local[k].1, season))
    ensures !ValidSeason(season) ==> r == []
  {
    if ValidSeason(season) then seq(|local|, k requires 0 <= k < |local| => (local[k].0, Reclassed(local[k].1, season)))
    else []
  }

  lemma ReclassConcat(a: seq<(string, Grid)>, b: seq<(string, Grid)>, season: string)
    ensures Reclass(a + b, season) == Reclass(a, season) + Reclass(b, season)
  {
    if ValidSeason(season) {
      assert forall k :: 0 <= k < |b| ==> (a + b)[|a| + k] == b[k];
    }
  }

  function Grids(rs: seq<(string, Grid)>): (gs: seq<Grid>)
    ensures |gs| == |rs| && forall k :: 0 <= k < |rs| ==> gs[k] == rs[k].1
  {
    seq(|rs|, k requires 0 <= k < |rs| => rs[k].1)
  }

  function Names(rs: seq<(string, Grid)>): (ns: seq<string>)
    ensures |ns| == |rs| && forall k :: 0 <= k < |rs| ==> ns[k] == rs[k].0
  {
    seq(|rs|, k requires 0 <= k < |rs| => rs[k].0)
  }

  /** The number of maps whose cell i meets the clause. */
  function Meeting(local: seq<(string, Grid)>, season: string, i: int): nat
  {
    if local == [] then 0
    else (if At(local[0].1, i).Some? && Holds(season, At(local[0].1, i).value) then 1 else 0) + Meeting(local[1..], season, i)
  }

  /** A sum of reclassified maps counts, per cell, the maps meeting the clause; NoData where none does. */
  lemma {:induction false} RichnessCounts(local: seq<(string, Grid)>, season: string, i: int)
    requires ValidSeason(season)
    ensures CellSum(Grids(Reclass(local, season)), i) == if Meeting(local, season, i) > 0 then Some(Meeting(local, season, i)) else None
  {
    if local != [] {
      RichnessCounts(local[1..], season, i);
      assert Grids(Reclass(local, season))[1..] == Grids(Reclass(local[1..], season));
      ReclassedAt(local[0].1, season, i);
    }
  }

  // --------------------------------------------------------------- batches

  function Min(a: int, b: int): int
  {
    if a < b then a else b
  }

  /** Where the batch after the one starting at x starts. */
  function NextBatch(x: nat, interval: int): nat
    requires interval > 0
  {
    x + interval
  }

  /** An intermediate raster `groupName_x.tif`, the species summed into it, and its cells. */
  datatype Intermediate = Intermediate(name: string, species: seq<string>, cells: Grid)

  /** The reclassified maps of the batch starting at x. */
  function BatchMaps(spp: seq<string>, copies: seq<Option<Grid>>, season: string, x: nat, interval: int): seq<(string, Grid)>
    requires |spp| == |copies| && x <= |spp| && interval > 0
  {
    var e := Min(x + interval, |spp|);
    Reclass(Local(spp[x..e], copies[x..e]), season)
  }

  /**
   * The batch loop from x on: `range(0, len(spp), interval)` is empty for a
   * negative interval; a batch with no reclassified map raises in
   * CellStatistics and adds nothing to `richInts`.
   */
  function BatchesFrom(groupName: string, spp: seq<string>, copies: seq<Option<Grid>>, season: string, interval: int, x: nat): seq<Intermediate>
    requires |spp| == |copies|
    decreases |spp| - x
  {
    if interval <= 0 || x >= |spp| then []
    else Batch(groupName, spp, copies, season, interval, x) + BatchesFrom(groupName, spp, copies, season, interval, NextBatch(x, interval))
  }

  /** What the batch starting at x adds to `richInts`: its sum, or nothing when it has no reclassified map. */
  function Batch(groupName: string, spp: seq<string>, copies: seq<Option<Grid>>, season: string, interval: int, x: nat): seq<Intermediate>
    requires |spp| == |copies| && x <= |spp| && interval > 0
  {
    var rs := BatchMaps(spp, copies, season, x, interval);
    if rs == [] then [] else [Intermediate(groupName + "_" + NatStr(x), Names(rs), SumData(Grids(rs)))]
  }

  function Cells(ints: seq<Intermediate>): (gs: seq<Grid>)
    ensures |gs| == |ints| && forall k :: 0 <= k < |ints| ==> gs[k] == ints[k].cells
  {
    seq(|ints|, k requires 0 <= k < |ints| => ints[k].cells)
  }

  /** The batches partition the species list: each is non-empty, holds at most `interval` species and they follow in order. */
  function BatchStarts(n: nat, interval: int, x: nat): seq<nat>
    decreases n - x
  {
    if interval <= 0 || x >= n then [] else [x] + BatchStarts(n, interval, x + interval)
  }

  function Flatten(spp: seq<string>, interval: int, starts: seq<nat>): seq<string>
    requires interval > 0 && forall k :: 0 <= k < |starts| ==> starts[k] <= |spp|
  {
    if starts == [] then [] else spp[starts[0]..Min(starts[0] + interval, |spp|)] + Flatten(spp, interval, starts[1..])
  }

  lemma {:induction false} BatchesPartition(spp: seq<string>, interval: int, x: nat)
    requires interval > 0 && x <= |spp|
    ensures forall k :: 0 <= k < |BatchStarts(|spp|, interval, x)| ==>
      var b := BatchStarts(|spp|, interval, x)[k];
      x <= b < |spp| && 0 < Min(b + interval, |spp|) - b <= interval
    ensures Flatten(spp, interval, BatchStarts(|spp|, interval, x)) == spp[x..]
    decreases |spp| - x
  {
    if x < |spp| {
      var e := Min(x + interval, |spp|);
      if e < |spp| {
        BatchesPartition(spp, interval, e);
      }
      var starts := BatchStarts(|spp|, interval, x);
      assert starts[1..] == BatchStarts(|spp|, interval, x + interval);
      assert spp[x..] == spp[x..e] + spp[e..];
    }
  }

  /** `gn`: the batch's first index written after the group name. */
  lemma BatchNames(groupName: string, spp: seq<string>, copies: seq<Option<Grid>>, season: string, interval: int, x: nat)
    requires |spp| == |copies| && interval > 0 && x < |spp| && BatchMaps(spp, copies, season, x, interval) != []
    ensures BatchesFrom(groupName, spp, copies, season, interval, x)[0].name == groupName + "_" + NatStr(x)
  {
  }

  /** The reclassified maps from x on are the batch's followed by those from the next batch on. */
  lemma BatchMapsSplit(spp: seq<string>, copies: seq<Option<Grid>>, season: string, interval: int, x: nat)
    requires |spp| == |copies| && interval > 0 && x < |spp|
    ensures NextBatch(x, interval) < |spp| ==>
      Reclass(Local(spp[x..], copies[x..]), season)
        == BatchMaps(spp, copies, season, x, interval) + Reclass(Local(spp[NextBatch(x, interval)..], copies[NextBatch(x, interval)..]), season)
    ensures |spp| <= NextBatch(x, interval) ==>
      Reclass(Local(spp[x..], copies[x..]), season) == BatchMaps(spp, copies, season, x, interval)
  {
    var e := Min(x + interval, |spp|);
    assert spp[x..] == spp[x..e] + spp[e..] && copies[x..] == copies[x..e] + copies[e..];
    LocalConcat(spp[x..e], copies[x..e], spp[e..], copies[e..]);
    ReclassConcat(Local(spp[x..e], copies[x..e]), Local(spp[e..], copies[e..]), season);
    if e == |spp| {
      assert spp[e..] == [] && copies[e..] == [];
    }
  }

  /** The cells of a batch's sum are the SUM "DATA" of its reclassified maps. */
  lemma BatchCells(groupName: string, spp: seq<string>, copies: seq<Option<Grid>>, season: string, interval: int, x: nat, rest: seq<Intermediate>, i: int)
    requires |spp| == |copies| && interval > 0 && x <= |spp|
    ensures CellSum(Cells(Batch(groupName, spp, copies, season, interval, x) + rest), i)
         == Combine(CellSum(Grids(BatchMaps(spp, copies, season, x, interval)), i), CellSum(Cells(rest), i))
  {
    var rs := BatchMaps(spp, copies, season, x, interval);
    var b := Batch(groupName, spp, copies, season, interval, x);
    assert Cells(b + rest) == Cells(b) + Cells(rest);
    CellSumConcat(Cells(b), Cells(rest), i);
    if rs != [] {
      SumDataAt(Grids(rs), i);
    } else {
      assert b == [];
    }
  }

  /** There is a batch sum from x on exactly when some map from x on was reclassified. */
  lemma {:induction false} BatchesExist(groupName: string, spp: seq<string>, copies: seq<Option<Grid>>, season: string, interval: int, x: nat)
    requires |spp| == |copies| && interval > 0 && x <= |spp|
    ensures BatchesFrom(groupName, spp, copies, season, interval, x) == [] <==> Reclass(Local(spp[x..], copies[x..]), season) == []
    decreases |spp| - x
  {
    if x < |spp| {
      if NextBatch(x, interval) < |spp| {
        BatchesExist(groupName, spp, copies, season, interval, NextBatch(x, interval));
      }
      BatchMapsSplit(spp, copies, season, interval, x);
    } else {
      assert spp[x..] == [] && copies[x..] == [];
    }
  }

  /** Summing the batch sums from x on is, at every cell, summing the reclassified maps from x on directly. */
  ghost predicate SumsAgree(groupName: string, spp: seq<string>, copies: seq<Option<Grid>>, season: string, interval: int, x: nat)
    requires |spp| == |copies| && x <= |spp|
  {
    forall i :: CellSum(Cells(BatchesFrom(groupName, spp, copies, season, interval, x)), i)
      == CellSum(Grids(Reclass(Local(spp[x..], copies[x..]), season)), i)
  }

  /** Summing the batch sums is summing the reclassified maps of all the species directly. */
  lemma {:induction false} BatchSumsAreDirectSum(groupName: string, spp: seq<string>, copies: seq<Option<Grid>>, season: string, interval: int, x: nat)
    requires |spp| == |copies| && interval > 0 && x <= |spp|
    ensures SumsAgree(groupName, spp, copies, season, interval, x)
    decreases |spp| - x
  {
    if NextBatch(x, interval) < |spp| {
      BatchSumsAreDirectSum(groupName, spp, copies, season, interval, NextBatch(x, interval));
      DirectSumStep(groupName, spp, copies, season, interval, x);
    } else {
      DirectSumLast(groupName, spp, copies, season, interval, x);
    }
  }

  /** The last batch. */
  lemma DirectSumLast(groupName: string, spp: seq<string>, copies: seq<Option<Grid>>, season: string, interval: int, x: nat)
    requires |spp| == |copies| && interval > 0 && x <= |spp| && |spp| <= NextBatch(x, interval)
    ensures SumsAgree(groupName, spp, copies, season, interval, x)
  {
    if x == |spp| {
      assert spp[x..] == [] && copies[x..] == [];
    } else {
      BatchesUnfold(groupName, spp, copies, season, interval, x);
      assert BatchesFrom(groupName, spp, copies, season, interval, NextBatch(x, interval)) == [];
      BatchMapsSplit(spp, copies, season, interval, x);
      forall i ensures CellSum(Cells(BatchesFrom(groupName, spp, copies, season, interval, x)), i)
        == CellSum(Grids(Reclass(Local(spp[x..], copies[x..]), season)), i)
      {
        BatchCells(groupName, spp, copies, season, interval, x, [], i);
      }
    }
  }

  /** One batch: the sums from x on agree, given that the sums from the next batch on do. */
  lemma DirectSumStep(groupName: string, spp: seq<string>, copies: seq<Option<Grid>>, season: string, interval: int, x: nat)
    requires |spp| == |copies| && interval > 0 && NextBatch(x, interval) < |spp|
    requires SumsAgree(groupName, spp, copies, season, interval, NextBatch(x, interval))
    ensures SumsAgree(groupName, spp, copies, season, interval, x)
  {
    forall i ensures CellSum(Cells(BatchesFrom(groupName, spp, copies, season, interval, x)), i)
      == CellSum(Grids(Reclass(Local(spp[x..], copies[x..]), season)), i)
    {
      BatchSumSplit(groupName, spp, copies, season, interval, x, i);
      DirectSumSplit(spp, copies, season, interval, x, i);
    }
  }

  /** The batch sums from x on: the batch's maps, then the batch sums from the next batch on. */
  lemma BatchSumSplit(groupName: string, spp: seq<string>, copies: seq<Option<Grid>>, season: string, interval: int, x: nat, i: int)
    requires |spp| == |copies| && interval > 0 && NextBatch(x, interval) < |spp|
    ensures CellSum(Cells(BatchesFrom(groupName, spp, copies, season, interval, x)), i)
      == Combine(CellSum(Grids(BatchMaps(spp, copies, season, x, interval)), i),
                 CellSum(Cells(BatchesFrom(groupName, spp, copies, season, interval, NextBatch(x, interval))), i))
  {
    var later := BatchesFrom(groupName, spp, copies, season, interval, NextBatch(x, interval));
    BatchesUnfold(groupName, spp, copies, season, interval, x);
    BatchCells(groupName, spp, copies, season, interval, x, later, i);
  }

  /** The maps from x on: the batch's maps, then the maps from the next batch on. */
  lemma DirectSumSplit(spp: seq<string>, copies: seq<Option<Grid>>, season: string, interval: int, x: nat, i: int)
    requires |spp| == |copies| && interval > 0 && NextBatch(x, interval) < |spp|
    ensures CellSum(Grids(Reclass(Local(spp[x..], copies[x..]), season)), i)
      == Combine(CellSum(Grids(BatchMaps(spp, copies, season, x, interval)), i),
                 CellSum(Grids(Reclass(Local(spp[NextBatch(x, interval)..], copies[NextBatch(x, interval)..]), season)), i))
  {
    var rs := BatchMaps(spp, copies, season, x, interval);
    var rest := Reclass(Local(spp[NextBatch(x, interval)..], copies[NextBatch(x, interval)..]), season);
    BatchMapsSplit(spp, copies, season, interval, x);
    assert Grids(rs + rest) == Grids(rs) + Grids(rest);
    CellSumConcat(Grids(rs), Grids(rest), i);
  }

  // --------------------------------------------------------------- the run

  /** What a run leaves: the species-table lines, the intermediate rasters and the final richness (None when it raises). */
  datatype BatchRun = BatchRun(lines: seq<string>, intermediates: seq<Intermediate>, richness: Option<Grid>)

  /** The species table: one line `s,` per species, in order. */
  function SpeciesLines(spp: seq<string>): (lines: seq<string>)
    ensures |lines| == |spp| && forall k :: 0 <= k < |spp| ==> lines[k] == spp[k] + ","
  {
    seq(|spp|, k requires 0 <= k < |spp| => spp[k] + ",")
  }

  /**
   * CalculateRichness, given each species' map as CopyRaster reads it (None
   * when the copy raises). A zero interval makes `range` raise; with no
   * intermediate raster the final CellStatistics raises and `outRast` is
   * unbound at the return.
   */
  function Calculate(groupName: string, spp: seq<string>, copies: seq<Option<Grid>>, season: string, interval: int): BatchRun
    requires |spp| == |copies|
  {
    if interval == 0 then BatchRun(SpeciesLines(spp), [], None)
    else
      var ints := BatchesFrom(groupName, spp, copies, season, interval, 0);
      BatchRun(SpeciesLines(spp), ints, if ints == [] then None else Some(SumData(Cells(ints))))
  }

  /**
   * The final richness: present exactly when the interval is positive and
   * some species' copy succeeded under a known season; each of its cells
   * counts the copied species whose value there meets the season's clause
   * (NoData where none does).
   */
  lemma FinalRichness(groupName: string, spp: seq<string>, copies: seq<Option<Grid>>, season: string, interval: int)
    requires |spp| == |copies|
    ensures var run := Calculate(groupName, spp, copies, season, interval);
      run.richness.Some? <==> interval > 0 && ValidSeason(season) && Local(spp, copies) != []
    ensures Calculate(groupName, spp, copies, season, interval).richness.Some? ==>
      forall i :: At(Calculate(groupName, spp, copies, season, interval).richness.value, i) ==
        if Meeting(Local(spp, copies), season, i) > 0 then Some(Meeting(Local(spp, copies), season, i)) else None
  {
    if interval > 0 {
      assert spp[0..] == spp && copies[0..] == copies;
      var ints := BatchesFrom(groupName, spp, copies, season, interval, 0);
      BatchSumsAreDirectSum(groupName, spp, copies, season, interval, 0);
      forall i ensures ints != [] ==> (At(SumData(Cells(ints)), i) ==
        if Meeting(Local(spp, copies), season, i) > 0 then Some(Meeting(Local(spp, copies), season, i)) else None)
      {
        BatchesExist(groupName, spp, copies, season, interval, 0);
        SumDataAt(Cells(ints), i);
        if ValidSeason(season) {
          RichnessCounts(Local(spp, copies), season, i);
        }
      }
      BatchesExist(groupName, spp, copies, season, interval, 0);
    } else if interval < 0 {
      assert BatchesFrom(groupName, spp, copies, season, interval, 0) == [];
    }
  }

  /** The copy loop of one batch. */
  method CopyBatch(sub: seq<string>, copies: seq<Option<Grid>>) returns (local: seq<(string, Grid)>)
    requires |sub| == |copies|
    ensures local == Local(sub, copies)
  {
    local := [];
    for j := 0 to |sub|
      invariant local == Local(sub[..j], copies[..j])
    {
      assert sub[..j + 1][..j] == sub[..j] && copies[..j + 1][..j] == copies[..j];
      if copies[j].Some? {
        local := local + [(Lower(sub[j]), Copied(copies[j].value))];
      }
    }
    assert sub[..|sub|] == sub && copies[..|sub|] == copies;
  }

  /** The reclass loop of one batch. */
  method ReclassBatch(local: seq<(string, Grid)>, season: string) returns (reclassed: seq<(string, Grid)>)
    ensures reclassed == Reclass(local, season)
  {
    reclassed := [];
    for j := 0 to |local|
      invariant reclassed == if ValidSeason(season) then Reclass(local[..j], season) else []
    {
      if ValidSeason(season) {
        assert Reclass(local[..j + 1], season) == Reclass(local[..j], season) + [(local[j].0, Reclassed(local[j].1, season))];
        reclassed := reclassed + [(local[j].0, Reclassed(local[j].1, season))];
      }
    }
    assert local[..|local|] == local;
  }

  /** One pass of the batch loop: copy, reclassify and sum the batch starting at x. */
  method SumBatch(groupName: string, spp: seq<string>, copies: seq<Option<Grid>>, season: string, interval: int, x: nat)
    returns (batch: seq<Intermediate>)
    requires |spp| == |copies| && interval > 0 && x < |spp|
    ensures batch == Batch(groupName, spp, copies, season, interval, x)
  {
    var e := Min(x + interval, |spp|);
    var local := CopyBatch(spp[x..e], copies[x..e]);
    var reclassed := ReclassBatch(local, season);
    batch := if reclassed == [] then [] else [Intermediate(groupName + "_" + NatStr(x), Names(reclassed), SumData(Grids(reclassed)))];
  }

  lemma BatchesStep(groupName: string, spp: seq<string>, copies: seq<Option<Grid>>, season: string, interval: int, x: nat, done: seq<Intermediate>)
    requires |spp| == |copies| && interval > 0 && x < |spp|
    ensures done + BatchesFrom(groupName, spp, copies, season, interval, x)
         == (done + Batch(groupName, spp, copies, season, interval, x)) + BatchesFrom(groupName, spp, copies, season, interval, NextBatch(x, interval))
  {
    BatchesUnfold(groupName, spp, copies, season, interval, x);
    AppendAssociates(done, Batch(groupName, spp, copies, season, interval, x), BatchesFrom(groupName, spp, copies, season, interval, NextBatch(x, interval)));
  }

  /** The batches from x on: the batch at x, then those from the next batch on. */
  lemma BatchesUnfold(groupName: string, spp: seq<string>, copies: seq<Option<Grid>>, season: string, interval: int, x: nat)
    requires |spp| == |copies| && interval > 0 && x < |spp|
    ensures BatchesFrom(groupName, spp, copies, season, interval, x)
         == Batch(groupName, spp, copies, season, interval, x) + BatchesFrom(groupName, spp, copies, season, interval, NextBatch(x, interval))
  {
  }

  lemma AppendAssociates(a: seq<Intermediate>, b: seq<Intermediate>, c: seq<Intermediate>)
    ensures a + (b + c) == (a + b) + c
  {
  }

  /** The loop's state at x: the batch sums done, followed by those from x on, are all the batch sums. */
  predicate BatchesSoFar(groupName: string, spp: seq<string>, copies: seq<Option<Grid>>, season: string, interval: int, x: nat, richInts: seq<Intermediate>)
    requires |spp| == |copies|
  {
    BatchesFrom(groupName, spp, copies, season, interval, 0) == richInts + BatchesFrom(groupName, spp, copies, season, interval, x)
  }

  /** Running the batch at x moves its sum to the batch sums done. */
  lemma BatchesAdvance(groupName: string, spp: seq<string>, copies: seq<Option<Grid>>, season: string, interval: int, x: nat, richInts: seq<Intermediate>, batch: seq<Intermediate>)
    requires |spp| == |copies| && interval > 0 && x < |spp|
    requires BatchesSoFar(groupName, spp, copies, season, interval, x, richInts)
    requires batch == Batch(groupName, spp, copies, season, interval, x)
    ensures BatchesSoFar(groupName, spp, copies, season, interval, NextBatch(x, interval), richInts + batch)
  {
    BatchesStep(groupName, spp, copies, season, interval, x, richInts);
  }

  /** One pass of the batch loop, with `richInts.append` of its sum when it has one. */
  method BatchPass(groupName: string, spp: seq<string>, copies: seq<Option<Grid>>, season: string, interval: int, x: nat, richInts: seq<Intermediate>)
    returns (richInts': seq<Intermediate>)
    requires |spp| == |copies| && interval > 0 && x < |spp|
    requires BatchesSoFar(groupName, spp, copies, season, interval, x, richInts)
    ensures BatchesSoFar(groupName, spp, copies, season, interval, NextBatch(x, interval), richInts')
  {
    var batch := SumBatch(groupName, spp, copies, season, interval, x);
    BatchesAdvance(groupName, spp, copies, season, interval, x, richInts, batch);
    richInts' := richInts + batch;
  }

  /** The batch loop over `range(0, len(spp), interval)`. */
  method RunBatches(groupName: string, spp: seq<string>, copies: seq<Option<Grid>>, season: string, interval: int)
    returns (richInts: seq<Intermediate>)
    requires |spp| == |copies|
    ensures richInts == BatchesFrom(groupName, spp, copies, season, interval, 0)
  {
    richInts := [];
    var x: nat := 0;
    assert richInts + BatchesFrom(groupName, spp, copies, season, interval, 0) == BatchesFrom(groupName, spp, copies, season, interval, 0);
    while interval > 0 && x < |spp|
      invariant BatchesSoFar(groupName, spp, copies, season, interval, x, richInts)
      decreases |spp| - x
    {
      richInts := BatchPass(groupName, spp, copies, season, interval, x, richInts);
      x := NextBatch(x, interval);
    }
    assert BatchesFrom(groupName, spp, copies, season, interval, x) == [];
    assert richInts + [] == richInts;
  }

  method CalculateRichness(groupName: string, spp: seq<string>, copies: seq<Option<Grid>>, season: string, interval: int)
    returns (run: BatchRun)
    requires |spp| == |copies|
    ensures run == Calculate(groupName, spp, copies, season, interval)
  {
    var lines: seq<string> := [];
    for k := 0 to |spp|
      invariant lines == SpeciesLines(spp[..k])
    {
      lines := lines + [spp[k] + ","];
    }
    assert spp[..|spp|] == spp;
    if interval == 0 {
      return BatchRun(lines, [], None);
    }
    var richInts := RunBatches(groupName, spp, copies, season, interval);
    run := BatchRun(lines, richInts, if richInts == [] then None else Some(SumData(Cells(richInts))));
  }
}
