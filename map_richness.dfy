/**
 * Weighted species richness (gapanalysis/richness.py, MapRichness): a
 * tally raster starts as the extent raster and each species' habitat map,
 * divided by the species' weight, is added to it; the running tally is
 * saved at a fixed schedule as `Int(tally * 10000 + 0.5)`.
 *
 * Rasters are sequences of cells on the one grid the extent and snap
 * settings fix; None is NoData.
 */
module MapRichness {
  import opened Wrappers
  import opened Rounding
  import opened SpeciesIndex

  type Raster = seq<Option<real>>

  /** What the run reads for one species: its map's attribute table and its cells. */
  datatype SpeciesMap = SpeciesMap(table: seq<(int, int)>, pixels: seq<Option<int>>)

  // ---------------------------------------------------------------- weights

  /** The `count` after the cursor loop over a map's attribute table. */
  function CountOfOne(rows: seq<(int, int)>, prev: Option<int>): Option<int>
    decreases |rows|
  {
    if rows == [] then prev else CountOfOne(rows[1..], if rows[0].0 == 1 then Some(rows[0].1) else prev)
  }

  /** The loop leaves the COUNT of the last row whose VALUE is 1, and the earlier `count` when there is none. */
  lemma {:induction false} CountOfOneLast(rows: seq<(int, int)>, prev: Option<int>)
    ensures (forall j :: 0 <= j < |rows| ==> rows[j].0 != 1) ==> CountOfOne(rows, prev) == prev
    ensures forall j :: 0 <= j < |rows| && rows[j].0 == 1 && (forall j' :: j < j' < |rows| ==> rows[j'].0 != 1) ==>
              CountOfOne(rows, prev) == Some(rows[j].1)
    decreases |rows|
  {
    if rows != [] {
      var tail, p' := rows[1..], if rows[0].0 == 1 then Some(rows[0].1) else prev;
      CountOfOneLast(tail, p');
      if forall j :: 0 <= j < |rows| ==> rows[j].0 != 1 {
        assert forall j :: 0 <= j < |tail| ==> tail[j].0 != 1 by {
          forall j | 0 <= j < |tail| ensures tail[j].0 != 1 {
            assert tail[j] == rows[j + 1];
          }
        }
      }
      forall j | 0 <= j < |rows| && rows[j].0 == 1 && (forall j' :: j < j' < |rows| ==> rows[j'].0 != 1)
        ensures CountOfOne(rows, prev) == Some(rows[j].1)
      {
        LastOneInTail(rows, j);
      }
    }
  }

  /** The last row of value 1, seen from the rows after the first. */
  lemma LastOneInTail(rows: seq<(int, int)>, j: nat)
    requires j < |rows| && rows[j].0 == 1 && forall j' :: j < j' < |rows| ==> rows[j'].0 != 1
    ensures j == 0 ==> forall i :: 0 <= i < |rows[1..]| ==> rows[1..][i].0 != 1
    ensures j > 0 ==> rows[1..][j - 1] == rows[j] && forall j' :: j - 1 < j' < |rows[1..]| ==> rows[1..][j'].0 != 1
  {
    if j == 0 {
      forall i | 0 <= i < |rows[1..]| ensures rows[1..][i].0 != 1 {
        assert rows[1..][i] == rows[i + 1];
      }
    } else {
      forall j' | j - 1 < j' < |rows[1..]| ensures rows[1..][j'].0 != 1 {
        assert rows[1..][j'] == rows[j' + 1];
      }
    }
  }

  predicate HasKey(table: seq<(string, int)>, sp: string)
  {
    exists k :: 0 <= k < |table| && table[k].0 == sp
  }

  /** `weightsDF.loc[sp, "cnt"] = c`: the row labelled sp takes c; a new label is appended. */
  function SetCnt(table: seq<(string, int)>, sp: string, c: int): (r: seq<(string, int)>)
    ensures HasKey(table, sp) ==> |r| == |table| && forall k :: 0 <= k < |table| ==>
              r[k] == if table[k].0 == sp then (sp, c) else table[k]
    ensures !HasKey(table, sp) ==> r == table + [(sp, c)]
  {
    if HasKey(table, sp) then seq(|table|, k requires 0 <= k < |table| => if table[k].0 == sp then (sp, c) else table[k])
    else table + [(sp, c)]
  }

  /**
   * The weight-table loop from a partial table and the current `count`. A
   * species whose map cannot be read raises; so does one reached while
   * `count` is still unbound (NameError).
   */
  function CountsFrom(table: seq<(string, int)>, count: Option<int>, spp: seq<string>, maps: seq<Option<SpeciesMap>>): Option<seq<(string, int)>>
    requires |spp| == |maps|
    decreases |spp|
  {
    if spp == [] then Some(table)
    else if maps[0].None? then None
    else
      var c := CountOfOne(maps[0].value.table, count);
      if c.None? then None else CountsFrom(SetCnt(table, spp[0], c.value), c, spp[1..], maps[1..])
  }

  function WeightCounts(spp: seq<string>, maps: seq<Option<SpeciesMap>>): Option<seq<(string, int)>>
    requires |spp| == |maps|
  {
    CountsFrom([], None, spp, maps)
  }

  predicate HasOne(m: SpeciesMap)
  {
    exists j :: 0 <= j < |m.table| && m.table[j].0 == 1
  }

  /**
   * The weight table is built exactly when every map can be read and the
   * first species has a row of value 1 (after that `count` stays bound).
   */
  lemma {:induction false} CountsFromSucceeds(table: seq<(string, int)>, count: Option<int>, spp: seq<string>, maps: seq<Option<SpeciesMap>>)
    requires |spp| == |maps|
    ensures CountsFrom(table, count, spp, maps).Some? <==>
      (forall i :: 0 <= i < |maps| ==> maps[i].Some?) && (spp == [] || count.Some? || HasOne(maps[0].value))
    decreases |spp|
  {
    if spp != [] && maps[0].Some? {
      var rows := maps[0].value.table;
      var c := CountOfOne(rows, count);
      if HasOne(maps[0].value) {
        CountOfOneFound(rows, count, None);
      } else {
        CountOfOneLast(rows, count);
      }
      if c.Some? {
        CountsFromSucceeds(SetCnt(table, spp[0], c.value), c, spp[1..], maps[1..]);
        assert forall i :: 0 < i < |maps| ==> maps[i] == maps[1..][i - 1];
      }
    }
  }

  /** A species not yet in the table is appended, and the later species are not in the longer table either. */
  lemma FreshSpecies(table: seq<(string, int)>, spp: seq<string>, c: int)
    requires spp != [] && Distinct(spp)
    requires forall i, k :: 0 <= i < |spp| && 0 <= k < |table| ==> table[k].0 != spp[i]
    ensures SetCnt(table, spp[0], c) == table + [(spp[0], c)]
    ensures forall i, k :: 0 <= i < |spp[1..]| && 0 <= k < |SetCnt(table, spp[0], c)| ==> SetCnt(table, spp[0], c)[k].0 != spp[1..][i]
  {
    assert !HasKey(table, spp[0]);
    var table' := table + [(spp[0], c)];
    forall i, k | 0 <= i < |spp[1..]| && 0 <= k < |table'| ensures table'[k].0 != spp[1..][i] {
      assert spp[1..][i] == spp[i + 1] != spp[0];
    }
  }

  lemma DistinctTail(spp: seq<string>)
    requires spp != [] && Distinct(spp)
    ensures Distinct(spp[1..])
  {
    forall i, j | 0 <= i < j < |spp[1..]| ensures spp[1..][i] != spp[1..][j] {
      assert spp[1..][i] == spp[i + 1] && spp[1..][j] == spp[j + 1];
    }
  }

  /** One species of the weight-table loop. */
  lemma CountsFromStep(table: seq<(string, int)>, count: Option<int>, spp: seq<string>, maps: seq<Option<SpeciesMap>>)
    requires |spp| == |maps| && spp != [] && maps[0].Some?
    requires CountOfOne(maps[0].value.table, count).Some?
    ensures CountsFrom(table, count, spp, maps) ==
      CountsFrom(SetCnt(table, spp[0], CountOfOne(maps[0].value.table, count).value), CountOfOne(maps[0].value.table, count), spp[1..], maps[1..])
  {
  }

  /** With distinct species each species appends its own row, in order. */
  lemma {:induction false} CountsFromKeys(table: seq<(string, int)>, count: Option<int>, spp: seq<string>, maps: seq<Option<SpeciesMap>>)
    requires |spp| == |maps| && Distinct(spp)
    requires forall i, k :: 0 <= i < |spp| && 0 <= k < |table| ==> table[k].0 != spp[i]
    requires CountsFrom(table, count, spp, maps).Some?
    ensures var r := CountsFrom(table, count, spp, maps).value;
      && |r| == |table| + |spp| && r[..|table|] == table
      && (forall i :: 0 <= i < |spp| ==> r[|table| + i].0 == spp[i])
    decreases |spp|
  {
    if spp != [] {
      var c := CountOfOne(maps[0].value.table, count);
      var table' := SetCnt(table, spp[0], c.value);
      FreshSpecies(table, spp, c.value);
      CountsFromStep(table, count, spp, maps);
      DistinctTail(spp);
      CountsFromKeys(table', c, spp[1..], maps[1..]);
      KeysAssemble(table, table', (spp[0], c.value), spp, CountsFrom(table', c, spp[1..], maps[1..]).value);
    }
  }

  /** The keys of the whole table from the keys after the first species. */
  lemma KeysAssemble(table: seq<(string, int)>, table': seq<(string, int)>, e: (string, int), spp: seq<string>, r: seq<(string, int)>)
    requires spp != [] && e.0 == spp[0] && table' == table + [e]
    requires |r| == |table'| + |spp[1..]| && r[..|table'|] == table'
    requires forall i :: 0 <= i < |spp[1..]| ==> r[|table'| + i].0 == spp[1..][i]
    ensures |r| == |table| + |spp| && r[..|table|] == table
    ensures forall i :: 0 <= i < |spp| ==> r[|table| + i].0 == spp[i]
  {
    var n := |table|;
    assert |table'| == n + 1;
    assert r[..n] == r[..n + 1][..n];
    assert r[n] == r[..n + 1][n];
    forall i | 0 < i < |spp| ensures r[n + i].0 == spp[i] {
      assert spp[1..][i - 1] == spp[i];
      assert n + 1 + (i - 1) == n + i;
    }
  }

  /**
   * For distinct species the weight table holds each species' own count
   * when its map has a row of value 1, and the previous species' count when
   * it has none.
   */
  lemma {:induction false} CountsFromRows(table: seq<(string, int)>, count: Option<int>, spp: seq<string>, maps: seq<Option<SpeciesMap>>)
    requires |spp| == |maps| && Distinct(spp)
    requires forall i, k :: 0 <= i < |spp| && 0 <= k < |table| ==> table[k].0 != spp[i]
    requires (forall i :: 0 <= i < |maps| ==> maps[i].Some?) && CountsFrom(table, count, spp, maps).Some?
    ensures var r := CountsFrom(table, count, spp, maps).value;
      && |r| == |table| + |spp|
      && (forall i :: 0 <= i < |spp| && HasOne(maps[i].value) ==> Some(r[|table| + i].1) == CountOfOne(maps[i].value.table, None))
      && (forall i :: 0 < i < |spp| && !HasOne(maps[i].value) ==> r[|table| + i].1 == r[|table| + i - 1].1)
      && (0 < |spp| && !HasOne(maps[0].value) ==> count == Some(r[|table|].1))
    decreases |spp|
  {
    CountsFromKeys(table, count, spp, maps);
    if spp != [] {
      var rows := maps[0].value.table;
      var c := CountOfOne(rows, count);
      if HasOne(maps[0].value) {
        CountOfOneFound(rows, count, None);
      } else {
        CountOfOneLast(rows, count);
      }
      var table' := SetCnt(table, spp[0], c.value);
      FreshSpecies(table, spp, c.value);
      CountsFromStep(table, count, spp, maps);
      DistinctTail(spp);
      assert forall i :: 0 <= i < |maps[1..]| ==> maps[1..][i].Some?;
      CountsFromRows(table', c, spp[1..], maps[1..]);
      CountsFromKeys(table', c, spp[1..], maps[1..]);
      RowsAssemble(table, table', (spp[0], c.value), count, c, maps, CountsFrom(table', c, spp[1..], maps[1..]).value);
    }
  }

  /** The counts of the whole table from the counts after the first species. */
  lemma RowsAssemble(table: seq<(string, int)>, table': seq<(string, int)>, e: (string, int), count: Option<int>, c: Option<int>, maps: seq<Option<SpeciesMap>>, r: seq<(string, int)>)
    requires maps != [] && (forall i :: 0 <= i < |maps| ==> maps[i].Some?) && c == Some(e.1) && table' == table + [e]
    requires HasOne(maps[0].value) ==> Some(e.1) == CountOfOne(maps[0].value.table, None)
    requires !HasOne(maps[0].value) ==> c == count
    requires |r| == |table'| + |maps[1..]| && r[..|table'|] == table'
    requires forall i :: 0 <= i < |maps[1..]| && HasOne(maps[1..][i].value) ==> Some(r[|table'| + i].1) == CountOfOne(maps[1..][i].value.table, None)
    requires forall i :: 0 < i < |maps[1..]| && !HasOne(maps[1..][i].value) ==> r[|table'| + i].1 == r[|table'| + i - 1].1
    requires 0 < |maps[1..]| && !HasOne(maps[1..][0].value) ==> c == Some(r[|table'|].1)
    ensures forall i :: 0 <= i < |maps| && HasOne(maps[i].value) ==> Some(r[|table| + i].1) == CountOfOne(maps[i].value.table, None)
    ensures forall i :: 0 < i < |maps| && !HasOne(maps[i].value) ==> r[|table| + i].1 == r[|table| + i - 1].1
    ensures !HasOne(maps[0].value) ==> count == Some(r[|table|].1)
  {
    var n := |table|;
    assert |table'| == n + 1;
    assert r[n] == r[..n + 1][n] == e;
    forall i | 0 < i < |maps|
      ensures HasOne(maps[i].value) ==> Some(r[n + i].1) == CountOfOne(maps[i].value.table, None)
      ensures !HasOne(maps[i].value) ==> r[n + i].1 == r[n + i - 1].1
    {
      assert maps[1..][i - 1] == maps[i];
      assert n + 1 + (i - 1) == n + i;
      if i > 1 {
        assert n + 1 + (i - 1) - 1 == n + i - 1;
      }
    }
  }

  /** Once the table has a row of value 1, the earlier `count` no longer matters. */
  lemma {:induction false} CountOfOneFound(rows: seq<(int, int)>, p: Option<int>, q: Option<int>)
    requires exists j :: 0 <= j < |rows| && rows[j].0 == 1
    ensures CountOfOne(rows, p).Some? && CountOfOne(rows, p) == CountOfOne(rows, q)
    decreases |rows|
  {
    var p', q' := if rows[0].0 == 1 then Some(rows[0].1) else p, if rows[0].0 == 1 then Some(rows[0].1) else q;
    if exists j :: 1 <= j < |rows| && rows[j].0 == 1 {
      var j :| 1 <= j < |rows| && rows[j].0 == 1;
      assert rows[1..][j - 1] == rows[j];
      CountOfOneFound(rows[1..], p', q');
    } else {
      assert forall j :: 0 <= j < |rows[1..]| ==> rows[1..][j] == rows[j + 1];
      CountOfOneLast(rows[1..], p');
      CountOfOneLast(rows[1..], q');
    }
  }

  /** A row of the weight table written to `<groupName>.csv`. */
  datatype WeightRow = WeightRow(species: string, cnt: int, weight: real, weightedValue: Option<real>)

  /** Number of counts below v, and equal to v. */
  function Below(cs: seq<int>, v: int): (r: nat)
    ensures r <= |cs|
  {
    if cs == [] then 0 else (if cs[0] < v then 1 else 0) + Below(cs[1..], v)
  }

  function Ties(cs: seq<int>, v: int): (r: nat)
    ensures r <= |cs|
  {
    if cs == [] then 0 else (if cs[0] == v then 1 else 0) + Ties(cs[1..], v)
  }

  /** `rankdata(method="average")`: the mean of the 1-based positions v's ties take in sorted order. */
  function AverageRank(cs: seq<int>, v: int): real
  {
    Below(cs, v) as real + (Ties(cs, v) + 1) as real / 2.0
  }

  function CntColumn(counts: seq<(string, int)>): (cs: seq<int>)
    ensures |cs| == |counts| && forall i :: 0 <= i < |counts| ==> cs[i] == counts[i].1
  {
    seq(|counts|, i requires 0 <= i < |counts| => counts[i].1)
  }

  function Weighted(sp: string, cnt: int, w: real): WeightRow
  {
    WeightRow(sp, cnt, w, if w == 0.0 then None else Some(1.0 / w))
  }

  /**
   * The weight column: the percentile of the species' count, or the count
   * itself. An empty table has no `cnt` column and any other method no
   * `weight` column; both raise (None).
   */
  function Weights(counts: seq<(string, int)>, weighting: string): (r: Option<seq<WeightRow>>)
    ensures r.Some? <==> |counts| > 0 && (weighting == "percentile" || weighting == "area")
    ensures r.Some? ==> |r.value| == |counts| && forall i :: 0 <= i < |counts| ==>
              r.value[i].species == counts[i].0 && r.value[i].cnt == counts[i].1
    ensures r.Some? && weighting == "area" ==> forall i :: 0 <= i < |counts| ==> r.value[i].weight == counts[i].1 as real
  {
    if |counts| == 0 then None
    else if weighting == "percentile" then
      var cs := CntColumn(counts);
      Some(seq(|counts|, i requires 0 <= i < |counts| =>
        Weighted(counts[i].0, counts[i].1, 100.0 * (AverageRank(cs, cs[i]) / |cs| as real))))
    else if weighting == "area" then
      Some(seq(|counts|, i requires 0 <= i < |counts| => Weighted(counts[i].0, counts[i].1, counts[i].1 as real)))
    else None
  }

  lemma {:induction false} TiesOfMember(cs: seq<int>, i: nat)
    requires i < |cs|
    ensures Ties(cs, cs[i]) >= 1
    ensures Below(cs, cs[i]) + Ties(cs, cs[i]) <= |cs|
  {
    BelowTies(cs, cs[i]);
    if i > 0 {
      assert cs[1..][i - 1] == cs[i];
      TiesOfMember(cs[1..], i - 1);
    }
  }

  lemma {:induction false} BelowTies(cs: seq<int>, v: int)
    ensures Below(cs, v) + Ties(cs, v) <= |cs|
  {
    if cs != [] {
      BelowTies(cs[1..], v);
    }
  }

  /** Every count below or tied with a is below a larger count b. */
  lemma {:induction false} BelowGrows(cs: seq<int>, a: int, b: int)
    requires a < b
    ensures Below(cs, b) >= Below(cs, a) + Ties(cs, a)
  {
    if cs != [] {
      BelowGrows(cs[1..], a, b);
    }
  }

  /**
   * Percentile weights lie in (0, 100]; equal counts get equal weights and
   * a larger count a strictly larger weight; the weighted value is the
   * weight's inverse.
   */
  lemma PercentileWeights(counts: seq<(string, int)>, i: nat, j: nat)
    requires i < |counts| && j < |counts|
    ensures var ws := Weights(counts, "percentile").value;
      && 0.0 < ws[i].weight <= 100.0
      && ws[i].weightedValue == Some(1.0 / ws[i].weight)
      && (counts[i].1 == counts[j].1 ==> ws[i].weight == ws[j].weight)
      && (counts[i].1 < counts[j].1 ==> ws[i].weight < ws[j].weight)
  {
    var cs := CntColumn(counts);
    var n := |cs| as real;
    TiesOfMember(cs, i);
    var ri := AverageRank(cs, cs[i]);
    assert 1.0 <= ri <= n;
    PercentOfRank(ri, n);
    if cs[i] < cs[j] {
      BelowGrows(cs, cs[i], cs[j]);
      TiesOfMember(cs, j);
      assert ri < AverageRank(cs, cs[j]);
      ScaleMonotone(ri, AverageRank(cs, cs[j]), n);
    }
  }

  lemma PercentOfRank(r: real, n: real)
    requires 1.0 <= r <= n
    ensures 0.0 < 100.0 * (r / n) <= 100.0
  {
    assert r / n <= 1.0;
  }

  lemma ScaleMonotone(a: real, b: real, n: real)
    requires a < b && n > 0.0
    ensures 100.0 * (a / n) < 100.0 * (b / n)
  {
    assert a / n < b / n;
  }

  /**
   * A percentile weight is never negative; an area weight is the count
   * itself, so it is negative exactly for a negative count (a "bad count"
   * in the attribute table).
   */
  lemma WeightsNonNegative(counts: seq<(string, int)>, weighting: string, i: nat)
    requires Weights(counts, weighting).Some? && i < |counts|
    ensures Weights(counts, weighting).value[i].weight >= 0.0 <==> weighting == "percentile" || counts[i].1 >= 0
  {
    if weighting == "percentile" {
      PercentileWeights(counts, i, i);
    }
  }

  // ------------------------------------------------------------------ tally

  function PixelAt(h: seq<Option<int>>, i: int): Option<int>
  {
    if 0 <= i < |h| then h[i] else None
  }

  /** Raster addition: NoData wherever either operand is NoData. */
  function AddR(a: Option<real>, b: Option<real>): (r: Option<real>)
    ensures r.Some? <==> a.Some? && b.Some?
  {
    if a.Some? && b.Some? then Some(a.value + b.value) else None
  }

  /** `habmap / weight` at one cell; division by zero gives NoData. */
  function Scaled(h: seq<Option<int>>, w: real, i: int): Option<real>
  {
    if PixelAt(h, i).Some? && w != 0.0 then Some(PixelAt(h, i).value as real / w) else None
  }

  /** `tally + habmap / weight`. */
  function AddScaled(t: Raster, h: seq<Option<int>>, w: real): (r: Raster)
    ensures |r| == |t|
  {
    seq(|t|, i requires 0 <= i < |t| => AddR(t[i], Scaled(h, w, i)))
  }

  function ToReal(base: seq<Option<int>>): (r: Raster)
    ensures |r| == |base|
  {
    seq(|base|, i requires 0 <= i < |base| => if base[i].Some? then Some(base[i].value as real) else None)
  }

  /** `Int(tally * 10000 + 0.5)`. */
  function Fixed(t: Raster): (r: Raster)
    ensures |r| == |t|
  {
    seq(|t|, i requires 0 <= i < |t| => if t[i].Some? then Some(Trunc(t[i].value * 10000.0 + 0.5) as real) else None)
  }

  /** The weight of a species: the row of the weight table labelled with it. */
  function WeightOf(ws: seq<WeightRow>, sp: string): Option<real>
  {
    if ws == [] then None else if ws[0].species == sp then Some(ws[0].weight) else WeightOf(ws[1..], sp)
  }

  /** `counter - 1 in range(0, 2000, interval)` for the k-th species (k >= 1). */
  predicate Saves(interval: int, k: int)
  {
    interval > 0 && 0 <= k < 2000 && k % interval == 0
  }

  /** An intermediate raster: the number in its file name and its cells. */
  datatype Checkpoint = Checkpoint(file: nat, cells: Raster)

  /** The checkpoints written and the final tally (None when the run exits). */
  datatype Progress = Progress(checkpoints: seq<Checkpoint>, tally: Option<Raster>)

  function Then(done: seq<Checkpoint>, p: Progress): Progress
  {
    Progress(done + p.checkpoints, p.tally)
  }

  /**
   * The summing loop after k species: a map that cannot be read, a missing
   * weight or the zero step of `range` raises and the run exits.
   */
  function SumFrom(t: Raster, k: nat, spp: seq<string>, maps: seq<Option<SpeciesMap>>, ws: seq<WeightRow>, interval: int): Progress
    requires |spp| == |maps|
    decreases |spp|
  {
    if spp == [] then Progress([], Some(t))
    else if maps[0].None? || WeightOf(ws, spp[0]).None? then Progress([], None)
    else
      var t' := AddScaled(t, maps[0].value.pixels, WeightOf(ws, spp[0]).value);
      if interval == 0 then Progress([], None)
      else Then(if Saves(interval, k + 1) then [Checkpoint(k + 2, Fixed(t'))] else [],
                SumFrom(t', k + 1, spp[1..], maps[1..], ws, interval))
  }

  /** The tally alone: base plus each species' map over its weight. */
  function TallyOf(t: Raster, spp: seq<string>, maps: seq<Option<SpeciesMap>>, ws: seq<WeightRow>): Option<Raster>
    requires |spp| == |maps|
    decreases |spp|
  {
    if spp == [] then Some(t)
    else if maps[0].None? || WeightOf(ws, spp[0]).None? then None
    else TallyOf(AddScaled(t, maps[0].value.pixels, WeightOf(ws, spp[0]).value), spp[1..], maps[1..], ws)
  }

  /** The sum over the species of map / weight at cell i. */
  function Contributions(spp: seq<string>, maps: seq<Option<SpeciesMap>>, ws: seq<WeightRow>, i: int): Option<real>
    requires |spp| == |maps|
    decreases |spp|
  {
    if spp == [] then Some(0.0)
    else if maps[0].None? || WeightOf(ws, spp[0]).None? then None
    else AddR(Scaled(maps[0].value.pixels, WeightOf(ws, spp[0]).value, i), Contributions(spp[1..], maps[1..], ws, i))
  }

  /** Each cell of the final tally is the base cell plus the sum of the species' map cells over their weights. */
  lemma {:induction false} TallyIsSum(t: Raster, spp: seq<string>, maps: seq<Option<SpeciesMap>>, ws: seq<WeightRow>)
    requires |spp| == |maps|
    ensures TallyOf(t, spp, maps, ws).Some? ==>
      var r := TallyOf(t, spp, maps, ws).value;
      |r| == |t| && forall i :: 0 <= i < |t| ==> r[i] == AddR(t[i], Contributions(spp, maps, ws, i))
    decreases |spp|
  {
    if spp != [] && maps[0].Some? && WeightOf(ws, spp[0]).Some? {
      var t' := AddScaled(t, maps[0].value.pixels, WeightOf(ws, spp[0]).value);
      TallyIsSum(t', spp[1..], maps[1..], ws);
      if TallyOf(t, spp, maps, ws).Some? {
        var r := TallyOf(t, spp, maps, ws).value;
        forall i | 0 <= i < |t| ensures r[i] == AddR(t[i], Contributions(spp, maps, ws, i)) {
          assert t'[i] == AddR(t[i], Scaled(maps[0].value.pixels, WeightOf(ws, spp[0]).value, i));
        }
      }
    }
  }

  /** With a non-zero interval the loop's tally is TallyOf; with interval 0 the first species ends the run. */
  lemma {:induction false} SumFromTally(t: Raster, k: nat, spp: seq<string>, maps: seq<Option<SpeciesMap>>, ws: seq<WeightRow>, interval: int)
    requires |spp| == |maps|
    ensures interval != 0 ==> SumFrom(t, k, spp, maps, ws, interval).tally == TallyOf(t, spp, maps, ws)
    ensures interval == 0 && spp != [] ==> SumFrom(t, k, spp, maps, ws, interval).tally == None
    decreases |spp|
  {
    if spp != [] && maps[0].Some? && WeightOf(ws, spp[0]).Some? {
      SumFromTally(AddScaled(t, maps[0].value.pixels, WeightOf(ws, spp[0]).value), k + 1, spp[1..], maps[1..], ws, interval);
    }
  }

  /**
   * An intermediate raster written by the loop started after k species:
   * it follows some later species k + j, one the schedule saves after, is
   * named `Intermediate_<k + j + 1>` and holds the fixed-point tally after
   * that species.
   */
  predicate WrittenAfter(t: Raster, k: nat, spp: seq<string>, maps: seq<Option<SpeciesMap>>, ws: seq<WeightRow>, interval: int, c: Checkpoint)
    requires |spp| == |maps|
  {
    && k + 2 <= c.file <= k + |spp| + 1
    && Saves(interval, c.file - 1)
    && TallyOf(t, spp[..c.file - 1 - k], maps[..c.file - 1 - k], ws).Some?
    && c.cells == Fixed(TallyOf(t, spp[..c.file - 1 - k], maps[..c.file - 1 - k], ws).value)
  }

  /**
   * The schedule of the intermediate rasters from species k + 1 on: each is
   * written after some species k + j (j >= 1) with `Saves(interval, k + j)`,
   * is named `Intermediate_<k + j + 1>` and holds the fixed-point tally after
   * that species; the names increase; and a run that finishes writes one
   * after every scheduled species.
   */
  lemma {:induction false} CheckpointSchedule(t: Raster, k: nat, spp: seq<string>, maps: seq<Option<SpeciesMap>>, ws: seq<WeightRow>, interval: int)
    requires |spp| == |maps|
    ensures forall m :: 0 <= m < |SumFrom(t, k, spp, maps, ws, interval).checkpoints| ==>
      WrittenAfter(t, k, spp, maps, ws, interval, SumFrom(t, k, spp, maps, ws, interval).checkpoints[m])
    ensures forall m, m' :: 0 <= m < m' < |SumFrom(t, k, spp, maps, ws, interval).checkpoints| ==>
      SumFrom(t, k, spp, maps, ws, interval).checkpoints[m].file < SumFrom(t, k, spp, maps, ws, interval).checkpoints[m'].file
    decreases |spp|
  {
    if spp != [] && maps[0].Some? && WeightOf(ws, spp[0]).Some? && interval != 0 {
      var t' := AddScaled(t, maps[0].value.pixels, WeightOf(ws, spp[0]).value);
      CheckpointSchedule(t', k + 1, spp[1..], maps[1..], ws, interval);
      var rest := SumFrom(t', k + 1, spp[1..], maps[1..], ws, interval).checkpoints;
      var head := if Saves(interval, k + 1) then [Checkpoint(k + 2, Fixed(t'))] else [];
      var cps := SumFrom(t, k, spp, maps, ws, interval).checkpoints;
      assert cps == head + rest;
      if Saves(interval, k + 1) {
        FirstWritten(t, k, spp, maps, ws, interval);
      }
      forall m | 0 <= m < |rest| ensures WrittenAfter(t, k, spp, maps, ws, interval, rest[m]) {
        WrittenAfterShift(t, k, spp, maps, ws, interval, rest[m]);
      }
    }
  }

  /** The intermediate written right after the first species holds the tally of that species alone. */
  lemma FirstWritten(t: Raster, k: nat, spp: seq<string>, maps: seq<Option<SpeciesMap>>, ws: seq<WeightRow>, interval: int)
    requires |spp| == |maps| && spp != [] && maps[0].Some? && WeightOf(ws, spp[0]).Some? && Saves(interval, k + 1)
    ensures WrittenAfter(t, k, spp, maps, ws, interval, Checkpoint(k + 2, Fixed(AddScaled(t, maps[0].value.pixels, WeightOf(ws, spp[0]).value))))
  {
    assert spp[..1][1..] == [] && maps[..1][1..] == [];
  }

  /** An intermediate written after the first species is described the same way before it. */
  lemma WrittenAfterShift(t: Raster, k: nat, spp: seq<string>, maps: seq<Option<SpeciesMap>>, ws: seq<WeightRow>, interval: int,
                          c: Checkpoint)
    requires |spp| == |maps| && spp != [] && maps[0].Some? && WeightOf(ws, spp[0]).Some?
    requires WrittenAfter(AddScaled(t, maps[0].value.pixels, WeightOf(ws, spp[0]).value), k + 1, spp[1..], maps[1..], ws, interval, c)
    ensures WrittenAfter(t, k, spp, maps, ws, interval, c)
  {
    var j := c.file - 1 - k;
    var j' := c.file - 1 - (k + 1);
    assert spp[..j][1..] == spp[1..][..j'] && maps[..j][1..] == maps[1..][..j'];
  }

  /** The loop started after k species names its intermediates after species k + 1 or later. */
  lemma {:induction false} FilesAfter(t: Raster, k: nat, spp: seq<string>, maps: seq<Option<SpeciesMap>>, ws: seq<WeightRow>, interval: int)
    requires |spp| == |maps|
    ensures forall m :: 0 <= m < |SumFrom(t, k, spp, maps, ws, interval).checkpoints| ==>
      SumFrom(t, k, spp, maps, ws, interval).checkpoints[m].file >= k + 2
    decreases |spp|
  {
    if spp != [] && maps[0].Some? && WeightOf(ws, spp[0]).Some? && interval != 0 {
      var t' := AddScaled(t, maps[0].value.pixels, WeightOf(ws, spp[0]).value);
      FilesAfter(t', k + 1, spp[1..], maps[1..], ws, interval);
    }
  }

  /** A finished run writes an intermediate raster after every scheduled species, and only after one. */
  lemma {:induction false} CheckpointsComplete(t: Raster, k: nat, spp: seq<string>, maps: seq<Option<SpeciesMap>>, ws: seq<WeightRow>, interval: int, j: nat)
    requires |spp| == |maps| && 1 <= j <= |spp|
    requires SumFrom(t, k, spp, maps, ws, interval).tally.Some?
    ensures Saves(interval, k + j) <==>
      exists m :: 0 <= m < |SumFrom(t, k, spp, maps, ws, interval).checkpoints| &&
        SumFrom(t, k, spp, maps, ws, interval).checkpoints[m].file == k + j + 1
    decreases |spp|
  {
    var t' := AddScaled(t, maps[0].value.pixels, WeightOf(ws, spp[0]).value);
    var rest := SumFrom(t', k + 1, spp[1..], maps[1..], ws, interval).checkpoints;
    var head := if Saves(interval, k + 1) then [Checkpoint(k + 2, Fixed(t'))] else [];
    assert SumFrom(t, k, spp, maps, ws, interval).checkpoints == head + rest;
    FilesAfter(t', k + 1, spp[1..], maps[1..], ws, interval);
    if j > 1 {
      CheckpointsComplete(t', k + 1, spp[1..], maps[1..], ws, interval, j - 1);
    }
    CompleteStep(head, rest, Fixed(t'), interval, k, j);
  }

  /** The files of one step: the head's after species k + 1, and the rest's later. */
  lemma CompleteStep(head: seq<Checkpoint>, rest: seq<Checkpoint>, cells: Raster, interval: int, k: nat, j: nat)
    requires j >= 1
    requires head == if Saves(interval, k + 1) then [Checkpoint(k + 2, cells)] else []
    requires forall m :: 0 <= m < |rest| ==> rest[m].file >= k + 3
    requires j > 1 ==> (Saves(interval, k + j) <==> exists m :: 0 <= m < |rest| && rest[m].file == k + j + 1)
    ensures Saves(interval, k + j) <==> exists m :: 0 <= m < |head + rest| && (head + rest)[m].file == k + j + 1
  {
    var cps := head + rest;
    if j == 1 {
      if Saves(interval, k + 1) {
        assert cps[0].file == k + 2;
      }
    } else {
      if Saves(interval, k + j) {
        var m :| 0 <= m < |rest| && rest[m].file == k + j + 1;
        assert cps[|head| + m] == rest[m];
      }
      if exists m :: 0 <= m < |cps| && cps[m].file == k + j + 1 {
        var m :| 0 <= m < |cps| && cps[m].file == k + j + 1;
        assert m >= |head|;
        assert rest[m - |head|] == cps[m];
      }
    }
  }

  predicate NonNegative(t: Raster)
  {
    forall i :: 0 <= i < |t| && t[i].Some? ==> t[i].value >= 0.0
  }

  predicate NonNegativeMaps(maps: seq<Option<SpeciesMap>>)
  {
    forall s, i :: 0 <= s < |maps| && maps[s].Some? && 0 <= i < |maps[s].value.pixels| && maps[s].value.pixels[i].Some? ==>
      maps[s].value.pixels[i].value >= 0
  }

  predicate NonNegativeWeights(ws: seq<WeightRow>)
  {
    forall k :: 0 <= k < |ws| ==> ws[k].weight >= 0.0
  }

  lemma {:induction false} WeightOfNonNegative(ws: seq<WeightRow>, sp: string)
    requires NonNegativeWeights(ws) && WeightOf(ws, sp).Some?
    ensures WeightOf(ws, sp).value >= 0.0
  {
    if ws[0].species != sp {
      assert forall k :: 0 <= k < |ws[1..]| ==> ws[1..][k] == ws[k + 1];
      WeightOfNonNegative(ws[1..], sp);
    }
  }

  /** From a non-negative base, non-negative maps and weights keep the tally non-negative. */
  lemma {:induction false} TallyNonNegative(t: Raster, spp: seq<string>, maps: seq<Option<SpeciesMap>>, ws: seq<WeightRow>)
    requires |spp| == |maps| && NonNegative(t) && NonNegativeMaps(maps) && NonNegativeWeights(ws)
    ensures TallyOf(t, spp, maps, ws).Some? ==> NonNegative(TallyOf(t, spp, maps, ws).value)
    decreases |spp|
  {
    if spp != [] && maps[0].Some? && WeightOf(ws, spp[0]).Some? {
      var w := WeightOf(ws, spp[0]).value;
      var h := maps[0].value.pixels;
      WeightOfNonNegative(ws, spp[0]);
      var t' := AddScaled(t, h, w);
      forall i | 0 <= i < |t'| && t'[i].Some? ensures t'[i].value >= 0.0 {
        assert t'[i] == AddR(t[i], Scaled(h, w, i));
        assert PixelAt(h, i).value >= 0;
        NonNegativeShare(PixelAt(h, i).value as real, w);
      }
      assert forall s :: 0 <= s < |maps[1..]| ==> maps[1..][s] == maps[s + 1];
      TallyNonNegative(t', spp[1..], maps[1..], ws);
    }
  }

  lemma NonNegativeShare(x: real, w: real)
    requires x >= 0.0 && w > 0.0
    ensures x / w >= 0.0
  {
  }

  /** Saved cells of a non-negative tally are 10000 times the tally rounded half up. */
  lemma FixedWithinHalf(t: Raster)
    requires NonNegative(t)
    ensures forall i :: 0 <= i < |t| && t[i].Some? ==>
      Fixed(t)[i].Some? && Fixed(t)[i].value - 0.5 <= t[i].value * 10000.0 < Fixed(t)[i].value + 0.5
  {
    forall i | 0 <= i < |t| && t[i].Some?
      ensures Fixed(t)[i].Some? && Fixed(t)[i].value - 0.5 <= t[i].value * 10000.0 < Fixed(t)[i].value + 0.5
    {
      FixedPointRounds(t[i].value);
    }
  }

  // -------------------------------------------------------------- the run

  /** The species table of an unweighted run: one line `s, 1,` per species. */
  function TableLines(spp: seq<string>): (lines: seq<string>)
    ensures |lines| == |spp| && forall i :: 0 <= i < |spp| ==> lines[i] == spp[i] + ", 1,"
  {
    seq(|spp|, i requires 0 <= i < |spp| => spp[i] + ", 1,")
  }

  /** The returned tally and the cells of Richness.tif. */
  datatype Final = Final(tally: Raster, saved: Raster)

  /** What a run leaves behind: the weight table, the species-table lines, the intermediate rasters, and its result. */
  datatype RichnessRun = RichnessRun(weights: seq<WeightRow>, lines: seq<string>, checkpoints: seq<Checkpoint>, result: Option<Final>)

  /**
   * MapRichness. With weighting "None" the first species adds 1 to every
   * cell and then reads the undefined weight table, so the run exits; only
   * an empty species list returns (the extent raster itself).
   */
  function Richness(spp: seq<string>, maps: seq<Option<SpeciesMap>>, base: seq<Option<int>>, interval: int, weighting: string): RichnessRun
    requires |spp| == |maps|
  {
    var start := ToReal(base);
    if weighting != "None" then
      match WeightCounts(spp, maps)
      case None => RichnessRun([], [], [], None)
      case Some(counts) =>
        match Weights(counts, weighting)
        case None => RichnessRun([], [], [], None)
        case Some(ws) =>
          var p := SumFrom(start, 0, spp, maps, ws, interval);
          RichnessRun(ws, [], p.checkpoints, if p.tally.Some? then Some(Final(p.tally.value, Fixed(p.tally.value))) else None)
    else
      RichnessRun([], TableLines(spp), [], if spp == [] then Some(Final(start, start)) else None)
  }

  /** The weight-table loop, with the cursor loop over each map's rows. */
  method BuildCounts(spp: seq<string>, maps: seq<Option<SpeciesMap>>) returns (counts: Option<seq<(string, int)>>)
    requires |spp| == |maps|
    ensures counts == WeightCounts(spp, maps)
  {
    var table: seq<(string, int)> := [];
    var count: Option<int> := None;
    var i := 0;
    while i < |spp|
      invariant 0 <= i <= |spp|
      invariant WeightCounts(spp, maps) == CountsFrom(table, count, spp[i..], maps[i..])
    {
      assert spp[i..][1..] == spp[i + 1..] && maps[i..][1..] == maps[i + 1..];
      if maps[i].None? {
        return None;
      }
      var rows := maps[i].value.table;
      var c := count;
      var j := 0;
      while j < |rows|
        invariant 0 <= j <= |rows|
        invariant CountOfOne(rows, count) == CountOfOne(rows[j..], c)
      {
        assert rows[j..][1..] == rows[j + 1..];
        if rows[j].0 == 1 {
          c := Some(rows[j].1);
        }
        j := j + 1;
      }
      if c.None? {
        return None;
      }
      table := SetCnt(table, spp[i], c.value);
      count := c;
      i := i + 1;
    }
    counts := Some(table);
  }

  /** The summing loop: `counter` numbers the intermediate files. */
  method SumTally(base: Raster, spp: seq<string>, maps: seq<Option<SpeciesMap>>, ws: seq<WeightRow>, interval: int)
    returns (p: Progress)
    requires |spp| == |maps|
    ensures p == SumFrom(base, 0, spp, maps, ws, interval)
  {
    var tally := base;
    var counter := 1;
    var saved: seq<Checkpoint> := [];
    var i := 0;
    while i < |spp|
      invariant 0 <= i <= |spp| && counter == i + 1
      invariant SumFrom(base, 0, spp, maps, ws, interval) == Then(saved, SumFrom(tally, i, spp[i..], maps[i..], ws, interval))
    {
      assert spp[i..][1..] == spp[i + 1..] && maps[i..][1..] == maps[i + 1..];
      if maps[i].None? {
        return Progress(saved, None);
      }
      counter := counter + 1;
      var w := WeightOf(ws, spp[i]);
      if w.None? {
        return Progress(saved, None);
      }
      tally := AddScaled(tally, maps[i].value.pixels, w.value);
      if interval == 0 {
        return Progress(saved, None);
      }
      if Saves(interval, counter - 1) {
        saved := saved + [Checkpoint(counter, Fixed(tally))];
      }
      i := i + 1;
    }
    p := Progress(saved, Some(tally));
  }

  method RunMapRichness(spp: seq<string>, maps: seq<Option<SpeciesMap>>, base: seq<Option<int>>, interval: int, weighting: string)
    returns (run: RichnessRun)
    requires |spp| == |maps|
    ensures run == Richness(spp, maps, base, interval, weighting)
  {
    var start := ToReal(base);
    if weighting != "None" {
      var counts := BuildCounts(spp, maps);
      if counts.None? {
        return RichnessRun([], [], [], None);
      }
      var ws := Weights(counts.value, weighting);
      if ws.None? {
        return RichnessRun([], [], [], None);
      }
      var p := SumTally(start, spp, maps, ws.value, interval);
      var result := if p.tally.Some? then Some(Final(p.tally.value, Fixed(p.tally.value))) else None;
      return RichnessRun(ws.value, [], p.checkpoints, result);
    }
    var lines: seq<string> := [];
    for i := 0 to |spp|
      invariant lines == TableLines(spp[..i])
    {
      assert spp[..i + 1] == spp[..i] + [spp[i]];
      lines := lines + [spp[i] + ", 1,"];
    }
    assert spp[..|spp|] == spp;
    run := RichnessRun([], lines, [], if spp == [] then Some(Final(start, start)) else None);
  }
}
