/**
 * The multi-species table after the loop (df3 in habitat.py and
 * representation.py): the zone moves out of the index, strUC is built from
 * the species' file name, ZoneTotal adds the four raw counts, the summer and
 * winter columns gain the all-year pixels, every row gets its species'
 * totals over all its rows, and each season's percentage is the row's share
 * of that total. NaN (None) propagates through the sums and is replaced by 0
 * at the end. Counts are integers of either sign: an attribute table can
 * hold negative counts, and then a zero total can sit beside non-zero
 * pixels, which pandas divides to an infinity that fillna keeps.
 */
module DerivedColumns {
  import opened Wrappers
  import opened PyText
  import opened ZoneFill

  /** pandas `+` on two count columns: NaN when either side is NaN. */
  function Add(a: Option<int>, b: Option<int>): (r: Option<int>)
    ensures r.Some? <==> a.Some? && b.Some?
    ensures r.Some? ==> r.value == a.value + b.value
  {
    if a.Some? && b.Some? then Some(a.value + b.value) else None
  }

  /** `fillna(0)`. */
  function FillNa(a: Option<int>): int
  {
    if a.Some? then a.value else 0
  }

  /** A row after ZoneTotal is computed and the summer and winter columns are widened. */
  datatype Wide = Wide(species: string, zone: int, nonHabitat: Option<int>, summer: Option<int>,
                       winter: Option<int>, allYear: Option<int>, zoneTotal: Option<int>)

  function Widen(r: ZoneRow): (w: Wide)
    ensures w.species == r.species && w.zone == r.zone
  {
    var c := r.counts;
    Wide(r.species, r.zone, c.nonHabitat, Add(c.summer, c.allYear), Add(c.winter, c.allYear), c.allYear,
         Add(Add(Add(c.nonHabitat, c.summer), c.winter), c.allYear))
  }

  /** The three seasonal column families that get a total and a percentage. */
  datatype Col = SummerCol | WinterCol | YearCol

  function Pixels(w: Wide, c: Col): Option<int>
  {
    match c
    case SummerCol => w.summer
    case WinterCol => w.winter
    case YearCol => w.allYear
  }

  /** `sum(df3.loc[sp][column])`: Python's sum over the species' rows, NaN when one of them is NaN. */
  function ColumnSum(ws: seq<Wide>, sp: string, c: Col): Option<int>
  {
    if ws == [] then Some(0)
    else
      var rest := ColumnSum(ws[1..], sp, c);
      if ws[0].species != sp then rest else Add(Pixels(ws[0], c), rest)
  }

  /** How many rows carry the label sp. */
  function Occurrences(ws: seq<Wide>, sp: string): nat
  {
    if ws == [] then 0 else (if ws[0].species == sp then 1 else 0) + Occurrences(ws[1..], sp)
  }

  /** A float that the percentage columns can hold after fillna: a finite value or an infinity of a sign. */
  datatype Quotient = Finite(v: real) | Infinite(positive: bool)

  /**
   * `100 * (pixels / total)` with true division, after fillna(0): NaN (a
   * NaN operand, or 0/0) becomes 0, and a non-zero count over a zero total
   * is an infinity of the count's sign.
   */
  function Perc(x: Option<int>, total: Option<int>): Quotient
  {
    if x.None? || total.None? then Finite(0.0)
    else if total.value == 0 then (if x.value == 0 then Finite(0.0) else Infinite(x.value > 0))
    else Finite(100.0 * (x.value as real) / (total.value as real))
  }

  /** A finished row of df3, indexed by (GeoTiff, Zone). */
  datatype Derived = Derived(species: string, zone: int, strUC: string,
                             percSummer: Quotient, percWinter: Quotient, percYearRound: Quotient,
                             nonHabitat: int, summer: int, winter: int, allYear: int, zoneTotal: int,
                             summerTotal: int, winterTotal: int, allYearTotal: int)

  function Percent(d: Derived, c: Col): Quotient
  {
    match c
    case SummerCol => d.percSummer
    case WinterCol => d.percWinter
    case YearCol => d.percYearRound
  }

  function CountOf(d: Derived, c: Col): int
  {
    match c
    case SummerCol => d.summer
    case WinterCol => d.winter
    case YearCol => d.allYear
  }

  function Total(d: Derived, c: Col): int
  {
    match c
    case SummerCol => d.summerTotal
    case WinterCol => d.winterTotal
    case YearCol => d.allYearTotal
  }

  function Widened(rows: seq<ZoneRow>): (ws: seq<Wide>)
    ensures |ws| == |rows| && forall i :: 0 <= i < |rows| ==> ws[i] == Widen(rows[i])
  {
    seq(|rows|, i requires 0 <= i < |rows| => Widen(rows[i]))
  }

  function DeriveRow(ws: seq<Wide>, i: nat, uc: string): Derived
    requires i < |ws|
  {
    var w := ws[i];
    var ts, tw, ty := ColumnSum(ws, w.species, SummerCol), ColumnSum(ws, w.species, WinterCol), ColumnSum(ws, w.species, YearCol);
    Derived(w.species, w.zone, uc, Perc(w.summer, ts), Perc(w.winter, tw), Perc(w.allYear, ty),
            FillNa(w.nonHabitat), FillNa(w.summer), FillNa(w.winter), FillNa(w.allYear), FillNa(w.zoneTotal),
            FillNa(ts), FillNa(tw), FillNa(ty))
  }

  /**
   * df3. The strUC comprehension raises on a name shorter than six
   * characters, and a species with a single row makes `df3.loc[i][column]`
   * a number, which `sum` cannot iterate; either way the run fails (None).
   */
  function Derive(rows: seq<ZoneRow>): (r: Option<seq<Derived>>)
    ensures r.Some? <==> forall i :: 0 <= i < |rows| ==>
              |rows[i].species| >= 6 && Occurrences(Widened(rows), rows[i].species) != 1
    ensures r.Some? ==> |r.value| == |rows| && forall i :: 0 <= i < |rows| ==>
              r.value[i].species == rows[i].species && r.value[i].zone == rows[i].zone &&
              StrUC(rows[i].species) == Some(r.value[i].strUC)
  {
    var ws := Widened(rows);
    if forall i :: 0 <= i < |rows| ==> |rows[i].species| >= 6 && Occurrences(ws, rows[i].species) != 1 then
      Some(seq(|rows|, i requires 0 <= i < |rows| => DeriveRow(ws, i, StrUC(rows[i].species).value)))
    else None
  }

  /** No count of the row is NaN. */
  predicate Complete(r: ZoneRow)
  {
    r.counts.nonHabitat.Some? && r.counts.summer.Some? && r.counts.winter.Some? && r.counts.allYear.Some?
  }

  /**
   * ZoneTotal is taken before the season columns change: with no NaN count
   * it equals the non-habitat, widened summer and widened winter pixels
   * less the all-year pixels they both now include; and the widened columns
   * are the raw ones plus the all-year pixels.
   */
  lemma ZoneTotalBeforeWidening(rows: seq<ZoneRow>, i: nat)
    requires Derive(rows).Some? && i < |rows| && Complete(rows[i])
    ensures var d, c := Derive(rows).value[i], rows[i].counts;
      && d.zoneTotal == c.nonHabitat.value + c.summer.value + c.winter.value + c.allYear.value
      && d.summer == c.summer.value + c.allYear.value
      && d.winter == c.winter.value + c.allYear.value
      && d.zoneTotal + d.allYear == d.nonHabitat + d.summer + d.winter
  {
  }

  /** A species' total is NaN unless each of its rows has its pixels. */
  lemma {:induction false} PixelsDefined(ws: seq<Wide>, i: nat, c: Col)
    requires i < |ws| && ColumnSum(ws, ws[i].species, c).Some?
    ensures Pixels(ws[i], c).Some?
  {
    if i > 0 {
      assert ws[1..][i - 1] == ws[i];
      PixelsDefined(ws[1..], i - 1, c);
    }
  }

  /** No present pixel count of a row labelled sp is negative. */
  predicate NonNegativePixels(ws: seq<Wide>, sp: string, c: Col)
  {
    forall j :: 0 <= j < |ws| && ws[j].species == sp && Pixels(ws[j], c).Some? ==> Pixels(ws[j], c).value >= 0
  }

  /** Rows without negative counts widen to columns without negative pixels. */
  lemma WidenedNonNegative(rows: seq<ZoneRow>, sp: string, c: Col)
    requires forall j :: 0 <= j < |rows| ==> NonNegative(rows[j].counts)
    ensures NonNegativePixels(Widened(rows), sp, c)
  {
    var ws := Widened(rows);
    forall j | 0 <= j < |ws| && ws[j].species == sp && Pixels(ws[j], c).Some?
      ensures Pixels(ws[j], c).value >= 0
    {
      assert NonNegative(rows[j].counts);
    }
  }

  /** A sum of non-negative pixels is non-negative. */
  lemma {:induction false} ColumnSumNonNegative(ws: seq<Wide>, sp: string, c: Col)
    requires NonNegativePixels(ws, sp, c) && ColumnSum(ws, sp, c).Some?
    ensures ColumnSum(ws, sp, c).value >= 0
  {
    if ws != [] {
      assert forall j :: 0 <= j < |ws| - 1 ==> ws[1..][j] == ws[j + 1];
      ColumnSumNonNegative(ws[1..], sp, c);
    }
  }

  /**
   * When no pixel count of the species is negative, a row's pixels are
   * part of its total, so they never exceed it. A negative count elsewhere
   * can make the total smaller than the row's pixels.
   */
  lemma {:induction false} PixelsWithinTotal(ws: seq<Wide>, i: nat, c: Col)
    requires i < |ws| && ColumnSum(ws, ws[i].species, c).Some?
    requires NonNegativePixels(ws, ws[i].species, c)
    ensures Pixels(ws[i], c).Some? && 0 <= Pixels(ws[i], c).value <= ColumnSum(ws, ws[i].species, c).value
  {
    assert forall j :: 0 <= j < |ws| - 1 ==> ws[1..][j] == ws[j + 1];
    if i > 0 {
      PixelsWithinTotal(ws[1..], i - 1, c);
    } else {
      ColumnSumNonNegative(ws[1..], ws[0].species, c);
    }
  }

  /** The sum of one derived column over the rows labelled sp. */
  function SumCount(ds: seq<Derived>, sp: string, c: Col): int
  {
    if ds == [] then 0 else (if ds[0].species == sp then CountOf(ds[0], c) else 0) + SumCount(ds[1..], sp, c)
  }

  /** The sum of one percentage column over the rows labelled sp; None when one of them is infinite. */
  function SumPercent(ds: seq<Derived>, sp: string, c: Col): Option<real>
  {
    if ds == [] then Some(0.0)
    else
      var rest := SumPercent(ds[1..], sp, c);
      if ds[0].species != sp then rest
      else if Percent(ds[0], c).Infinite? || rest.None? then None
      else Some(Percent(ds[0], c).v + rest.value)
  }

  /** No percentage of the rows labelled sp is infinite. */
  predicate AllFinite(ds: seq<Derived>, sp: string, c: Col)
  {
    forall j :: 0 <= j < |ds| && ds[j].species == sp ==> Percent(ds[j], c).Finite?
  }

  lemma {:induction false} SumAligned(ws: seq<Wide>, ds: seq<Derived>, sp: string, c: Col)
    requires |ws| == |ds| && ColumnSum(ws, sp, c).Some?
    requires forall j :: 0 <= j < |ws| ==> ds[j].species == ws[j].species
    requires forall j :: 0 <= j < |ws| && ws[j].species == sp ==> Some(CountOf(ds[j], c)) == Pixels(ws[j], c)
    ensures SumCount(ds, sp, c) == ColumnSum(ws, sp, c).value
  {
    if ws != [] {
      assert forall j :: 0 <= j < |ws| - 1 ==> ws[1..][j] == ws[j + 1] && ds[1..][j] == ds[j + 1];
      SumAligned(ws[1..], ds[1..], sp, c);
    }
  }

  lemma {:induction false} SumOfShares(ds: seq<Derived>, sp: string, c: Col, t: real)
    requires t != 0.0
    requires forall j :: 0 <= j < |ds| && ds[j].species == sp ==>
               Percent(ds[j], c) == Finite(100.0 * (CountOf(ds[j], c) as real) / t)
    ensures SumPercent(ds, sp, c) == Some(100.0 * (SumCount(ds, sp, c) as real) / t)
  {
    if ds != [] {
      assert forall j :: 0 <= j < |ds| - 1 ==> ds[1..][j] == ds[j + 1];
      SumOfShares(ds[1..], sp, c, t);
      ShareAdd((if ds[0].species == sp then CountOf(ds[0], c) else 0) as real, SumCount(ds[1..], sp, c) as real, t);
    }
  }

  lemma ShareAdd(a: real, b: real, t: real)
    requires t != 0.0
    ensures 100.0 * a / t + 100.0 * b / t == 100.0 * (a + b) / t
  {
  }

  lemma ShareBounded(x: real, t: real)
    requires 0.0 <= x <= t && t > 0.0
    ensures 0.0 <= 100.0 * x / t <= 100.0
  {
  }

  /** Percentages that are each 0 or infinite sum to 0, unless one is infinite. */
  lemma {:induction false} SumOfZeroTotal(ds: seq<Derived>, sp: string, c: Col)
    requires forall j :: 0 <= j < |ds| && ds[j].species == sp ==> Percent(ds[j], c) == Finite(0.0) || Percent(ds[j], c).Infinite?
    ensures SumPercent(ds, sp, c) == if AllFinite(ds, sp, c) then Some(0.0) else None
  {
    if ds != [] {
      assert forall j :: 0 <= j < |ds| - 1 ==> ds[1..][j] == ds[j + 1];
      SumOfZeroTotal(ds[1..], sp, c);
      assert AllFinite(ds, sp, c) <==> (ds[0].species == sp ==> Percent(ds[0], c).Finite?) && AllFinite(ds[1..], sp, c) by {
        if AllFinite(ds[1..], sp, c) && (ds[0].species == sp ==> Percent(ds[0], c).Finite?) {
          forall j | 0 <= j < |ds| && ds[j].species == sp ensures Percent(ds[j], c).Finite? {
            if j > 0 {
              assert ds[j] == ds[1..][j - 1];
            }
          }
        }
      }
    }
  }

  /** The seasonal columns of a derived row, read through Col. */
  lemma RowColumns(ws: seq<Wide>, j: nat, uc: string, c: Col)
    requires j < |ws|
    ensures var d, T := DeriveRow(ws, j, uc), ColumnSum(ws, ws[j].species, c);
      && d.species == ws[j].species
      && Percent(d, c) == Perc(Pixels(ws[j], c), T)
      && CountOf(d, c) == FillNa(Pixels(ws[j], c))
      && Total(d, c) == FillNa(T)
  {
    match c
    case SummerCol =>
    case WinterCol =>
    case YearCol =>
  }

  lemma ShareWhole(t: real)
    requires t != 0.0
    ensures 100.0 * t / t == 100.0
  {
  }

  /**
   * The share a derived row d of one season c holds, against its widened row
   * w and its species' total T: a non-zero total gives the row's share, a
   * NaN total gives 0, and a zero total gives 0 for a row without pixels and
   * an infinity of the pixels' sign otherwise.
   */
  predicate ShareOf(w: Wide, d: Derived, c: Col, T: Option<int>)
  {
    && (T.Some? && T.value != 0 ==> Percent(d, c) == Finite(100.0 * (CountOf(d, c) as real) / (T.value as real)))
    && (T.Some? ==> Some(CountOf(d, c)) == Pixels(w, c))
    && (T.None? ==> Percent(d, c) == Finite(0.0))
    && (T == Some(0) ==> Percent(d, c) == if CountOf(d, c) == 0 then Finite(0.0) else Infinite(CountOf(d, c) > 0))
    && Total(d, c) == FillNa(T)
  }

  /** Every row of a species, in a derived table built row by row from ws, holds its share of the species total. */
  lemma SpeciesShares(ws: seq<Wide>, ucs: seq<string>, ds: seq<Derived>, sp: string, c: Col, T: Option<int>)
    requires |ws| == |ucs| == |ds| && forall j :: 0 <= j < |ds| ==> ds[j] == DeriveRow(ws, j, ucs[j])
    requires T == ColumnSum(ws, sp, c)
    ensures forall j :: 0 <= j < |ds| ==> ds[j].species == ws[j].species
    ensures forall j :: 0 <= j < |ds| && ds[j].species == sp ==> ShareOf(ws[j], ds[j], c, T)
  {
    forall j | 0 <= j < |ds|
      ensures ds[j].species == ws[j].species
      ensures ds[j].species == sp ==> ShareOf(ws[j], ds[j], c, T)
    {
      ShareAt(ws, ucs[j], ds[j], sp, j, c, T);
    }
  }

  /** SpeciesShares for the row at j. */
  lemma ShareAt(ws: seq<Wide>, uc: string, d: Derived, sp: string, j: nat, c: Col, T: Option<int>)
    requires j < |ws| && d == DeriveRow(ws, j, uc) && T == ColumnSum(ws, sp, c)
    ensures d.species == ws[j].species
    ensures d.species == sp ==> ShareOf(ws[j], d, c, T)
  {
    RowColumns(ws, j, uc, c);
    if d.species == sp && T.Some? {
      PixelsDefined(ws, j, c);
    }
  }

  /** The derived table as the rows it is built from, each with its strUC. */
  lemma DeriveRows(rows: seq<ZoneRow>) returns (ws: seq<Wide>, ucs: seq<string>)
    requires Derive(rows).Some?
    ensures ws == Widened(rows) && |ucs| == |rows|
    ensures forall j :: 0 <= j < |rows| ==> Derive(rows).value[j] == DeriveRow(ws, j, ucs[j])
  {
    ws := Widened(rows);
    ucs := seq(|rows|, j requires 0 <= j < |rows| => StrUC(rows[j].species).value);
  }

  /**
   * A percentage is infinite exactly when its species' total is 0 (not
   * NaN) and the row's own pixels are not 0; it then has the pixels' sign.
   * Only negative counts allow this (PercentInRange).
   */
  lemma InfinitePercent(rows: seq<ZoneRow>, i: nat, c: Col)
    requires Derive(rows).Some? && i < |rows|
    ensures var d := Derive(rows).value[i];
      && (Percent(d, c).Infinite? <==> ColumnSum(Widened(rows), rows[i].species, c) == Some(0) && CountOf(d, c) != 0)
      && (Percent(d, c).Infinite? ==> (Percent(d, c).positive <==> CountOf(d, c) > 0))
  {
    var ws, ucs := DeriveRows(rows);
    RowColumns(ws, i, ucs[i], c);
    if ColumnSum(ws, ws[i].species, c).Some? {
      PixelsDefined(ws, i, c);
    }
  }

  /** Without negative counts every percentage is finite and lies in 0..100. */
  lemma PercentInRange(rows: seq<ZoneRow>, i: nat, c: Col)
    requires Derive(rows).Some? && i < |rows|
    requires forall j :: 0 <= j < |rows| ==> NonNegative(rows[j].counts)
    ensures Percent(Derive(rows).value[i], c).Finite?
    ensures 0.0 <= Percent(Derive(rows).value[i], c).v <= 100.0
  {
    var ws, ucs := DeriveRows(rows);
    var T := ColumnSum(ws, ws[i].species, c);
    RowColumns(ws, i, ucs[i], c);
    WidenedNonNegative(rows, ws[i].species, c);
    if T.Some? {
      PixelsWithinTotal(ws, i, c);
      if T.value > 0 {
        ShareBounded(Pixels(ws[i], c).value as real, T.value as real);
      }
    }
  }

  /** Without negative counts no percentage of a species is infinite. */
  lemma NonNegativeAllFinite(rows: seq<ZoneRow>, sp: string, c: Col)
    requires Derive(rows).Some?
    requires forall j :: 0 <= j < |rows| ==> NonNegative(rows[j].counts)
    ensures AllFinite(Derive(rows).value, sp, c)
  {
    forall j | 0 <= j < |rows| && Derive(rows).value[j].species == sp
      ensures Percent(Derive(rows).value[j], c).Finite?
    {
      PercentInRange(rows, j, c);
    }
  }

  /**
   * A species' percentages of one season over all its zones add up to 100
   * when its total is not 0, whatever its sign. With a total of 0 (or NaN,
   * which fillna turned into 0) they add up to 0, unless one of them is
   * infinite.
   */
  lemma PercentagesAddUp(rows: seq<ZoneRow>, i: nat, c: Col)
    requires Derive(rows).Some? && i < |rows|
    ensures var ds := Derive(rows).value; var sp := ds[i].species;
      && (Total(ds[i], c) != 0 ==> SumPercent(ds, sp, c) == Some(100.0))
      && (Total(ds[i], c) == 0 ==> SumPercent(ds, sp, c) == if AllFinite(ds, sp, c) then Some(0.0) else None)
  {
    var ws, ucs := DeriveRows(rows);
    var ds := Derive(rows).value;
    var sp := ws[i].species;
    var T := ColumnSum(ws, sp, c);
    SpeciesShares(ws, ucs, ds, sp, c, T);
    assert ShareOf(ws[i], ds[i], c, T);
    if T.Some? && T.value != 0 {
      NonZeroTotalSum(ws, ds, sp, c, T);
    } else {
      ZeroTotalSum(ws, ds, sp, c, T);
    }
  }

  /** Shares of a non-zero total add up to 100. */
  lemma NonZeroTotalSum(ws: seq<Wide>, ds: seq<Derived>, sp: string, c: Col, T: Option<int>)
    requires |ws| == |ds| && forall j :: 0 <= j < |ds| ==> ds[j].species == ws[j].species
    requires forall j :: 0 <= j < |ds| && ds[j].species == sp ==> ShareOf(ws[j], ds[j], c, T)
    requires T == ColumnSum(ws, sp, c) && T.Some? && T.value != 0
    ensures SumPercent(ds, sp, c) == Some(100.0)
  {
    SumOfShares(ds, sp, c, T.value as real);
    SumAligned(ws, ds, sp, c);
    ShareWhole(T.value as real);
  }

  /** Shares of a zero or NaN total add up to 0, unless one is infinite. */
  lemma ZeroTotalSum(ws: seq<Wide>, ds: seq<Derived>, sp: string, c: Col, T: Option<int>)
    requires |ws| == |ds| && forall j :: 0 <= j < |ds| ==> ds[j].species == ws[j].species
    requires forall j :: 0 <= j < |ds| && ds[j].species == sp ==> ShareOf(ws[j], ds[j], c, T)
    requires T.None? || T == Some(0)
    ensures SumPercent(ds, sp, c) == if AllFinite(ds, sp, c) then Some(0.0) else None
  {
    SumOfZeroTotal(ds, sp, c);
  }

  /**
   * With no NaN among a species' rows, each of its totals is the sum of the
   * derived (widened) column over its rows.
   */
  lemma TotalsAreSums(rows: seq<ZoneRow>, i: nat, c: Col)
    requires Derive(rows).Some? && i < |rows|
    requires forall j :: 0 <= j < |rows| && rows[j].species == rows[i].species ==> Complete(rows[j])
    ensures var ds := Derive(rows).value; Total(ds[i], c) == SumCount(ds, ds[i].species, c)
  {
    var ws, ucs := DeriveRows(rows);
    var ds := Derive(rows).value;
    var sp := ws[i].species;
    forall j | 0 <= j < |ws| && ws[j].species == sp ensures Pixels(ws[j], c).Some? {
      assert Complete(rows[j]);
    }
    SomeSum(ws, sp, c);
    SpeciesShares(ws, ucs, ds, sp, c, ColumnSum(ws, sp, c));
    SumAligned(ws, ds, sp, c);
  }

  lemma {:induction false} SomeSum(ws: seq<Wide>, sp: string, c: Col)
    requires forall j :: 0 <= j < |ws| && ws[j].species == sp ==> Pixels(ws[j], c).Some?
    ensures ColumnSum(ws, sp, c).Some?
  {
    if ws != [] {
      assert forall j :: 0 <= j < |ws| - 1 ==> ws[1..][j] == ws[j + 1];
      SomeSum(ws[1..], sp, c);
    }
  }
}
