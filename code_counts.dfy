/**
 * The per-species count table `df2` of the zonal overlays: one row per
 * expected code at count 0, then `df2.loc[VALUE, "COUNT"] = COUNT` for every
 * row of the summed raster's attribute table. A value that is not in the
 * index is logged as "ERROR!!!" and, like any `.loc` assignment to a missing
 * label, appended as a new row.
 */
module CodeCounts {
  import opened Wrappers
  import opened Cursors

  /** One row of df2: a code and its pixel count. */
  type CountTable = seq<(int, int)>

  predicate HasCode(t: CountTable, v: int)
  {
    exists i :: 0 <= i < |t| && t[i].0 == v
  }

  /** A fresh df2 over the given index, every count 0. */
  function Zeros(codes: seq<int>): (t: CountTable)
    ensures |t| == |codes|
    ensures forall i :: 0 <= i < |t| ==> t[i] == (codes[i], 0)
  {
    seq(|codes|, i requires 0 <= i < |codes| => (codes[i], 0))
  }

  /** `df2.loc[v, "COUNT"] = c`: every row labelled v takes c; a missing label is appended. */
  function SetCount(t: CountTable, v: int, c: int): (r: CountTable)
    ensures HasCode(t, v) ==> |r| == |t|
    ensures !HasCode(t, v) ==> r == t + [(v, c)]
    ensures forall i :: 0 <= i < |t| ==> r[i].0 == t[i].0 && r[i].1 == if t[i].0 == v then c else t[i].1
  {
    if HasCode(t, v) then seq(|t|, i requires 0 <= i < |t| => if t[i].0 == v then (v, c) else t[i])
    else t + [(v, c)]
  }

  /** df2 after the cursor loop: the assignments applied in cursor order. */
  function Filled(t: CountTable, rows: seq<(int, int)>): CountTable
    decreases |rows|
  {
    if rows == [] then t else Filled(SetCount(t, rows[0].0, rows[0].1), rows[1..])
  }

  /** The values logged as "ERROR!!!": those not yet in df2's index when their row arrives. */
  function Flagged(t: CountTable, rows: seq<(int, int)>): seq<int>
    decreases |rows|
  {
    if rows == [] then []
    else (if HasCode(t, rows[0].0) then [] else [rows[0].0]) + Flagged(SetCount(t, rows[0].0, rows[0].1), rows[1..])
  }

  /** The count the cursor reported last for value v, if it reported v at all. */
  function LastCount(rows: seq<(int, int)>, v: int): (r: Option<int>)
    ensures r.None? <==> forall j :: 0 <= j < |rows| ==> rows[j].0 != v
    ensures r.Some? ==> exists j :: 0 <= j < |rows| && rows[j] == (v, r.value) &&
                          forall j' :: j < j' < |rows| ==> rows[j'].0 != v
  {
    if rows == [] then None
    else if rows[|rows| - 1].0 == v then
      assert rows[|rows| - 1] == (v, rows[|rows| - 1].1);
      Some(rows[|rows| - 1].1)
    else
      var init := rows[..|rows| - 1];
      var r := LastCount(init, v);
      assert r.None? <==> forall j :: 0 <= j < |rows| ==> rows[j].0 != v by {
        forall j | 0 <= j < |init| ensures init[j] == rows[j] {
          assert init[j] == rows[j];
        }
      }
      assert r.Some? ==> exists j :: 0 <= j < |rows| && rows[j] == (v, r.value) &&
                           forall j' :: j < j' < |rows| ==> rows[j'].0 != v by {
        if r.Some? {
          var j :| 0 <= j < |init| && init[j] == (v, r.value) && forall j' :: j < j' < |init| ==> init[j'].0 != v;
          assert init[j] == rows[j];
          forall j' | j < j' < |rows| ensures rows[j'].0 != v {
            if j' < |init| {
              assert init[j'] == rows[j'];
            }
          }
        }
      }
      r
  }

  /** The count df2 holds for a code after the cursor: the last one reported, or 0. */
  function Reported(rows: seq<(int, int)>, v: int): int
  {
    match LastCount(rows, v)
    case Some(c) => c
    case None => 0
  }

  lemma LastCountCons(rows: seq<(int, int)>, v: int)
    requires rows != []
    ensures LastCount(rows, v) ==
              if LastCount(rows[1..], v).Some? then LastCount(rows[1..], v)
              else if rows[0].0 == v then Some(rows[0].1) else None
  {
    var l, l' := LastCount(rows, v), LastCount(rows[1..], v);
    if l'.Some? {
      var j :| 0 <= j < |rows[1..]| && rows[1..][j] == (v, l'.value) && forall j' :: j < j' < |rows[1..]| ==> rows[1..][j'].0 != v;
      assert rows[j + 1] == (v, l'.value);
      assert l.Some?;
      var k :| 0 <= k < |rows| && rows[k] == (v, l.value) && forall j' :: k < j' < |rows| ==> rows[j'].0 != v;
      assert k == j + 1;
    } else if rows[0].0 == v {
      assert l.Some?;
      var k :| 0 <= k < |rows| && rows[k] == (v, l.value) && forall j' :: k < j' < |rows| ==> rows[j'].0 != v;
      assert k == 0;
    } else {
      assert forall j :: 0 <= j < |rows| ==> rows[j].0 != v by {
        forall j | 0 <= j < |rows| ensures rows[j].0 != v {
          if j > 0 { assert rows[j] == rows[1..][j - 1]; }
        }
      }
    }
  }

  /**
   * The cursor fill keeps df2's rows in place and only appends: every code
   * of the initial table keeps its position, and every appended row carries
   * a value the cursor reported.
   */
  lemma {:induction false} FilledLayout(t: CountTable, rows: seq<(int, int)>)
    ensures |Filled(t, rows)| >= |t|
    ensures forall i :: 0 <= i < |t| ==> Filled(t, rows)[i].0 == t[i].0
    ensures forall i :: |t| <= i < |Filled(t, rows)| ==> exists j :: 0 <= j < |rows| && rows[j].0 == Filled(t, rows)[i].0
    decreases |rows|
  {
    if rows != [] {
      var t' := SetCount(t, rows[0].0, rows[0].1);
      FilledLayout(t', rows[1..]);
      var f := Filled(t, rows);
      forall i | |t| <= i < |f| ensures exists j :: 0 <= j < |rows| && rows[j].0 == f[i].0 {
        if i < |t'| {
          assert f[i].0 == rows[0].0;
        } else {
          var j :| 0 <= j < |rows[1..]| && rows[1..][j].0 == f[i].0;
          assert rows[j + 1].0 == f[i].0;
        }
      }
    }
  }

  /**
   * Every row of the filled df2 holds the count the cursor reported last for
   * its code; a code the cursor never reported keeps its initial count (0 in
   * a fresh df2). Reported values missing from the index are flagged, but
   * still appended and stored.
   */
  lemma {:induction false} FilledCounts(t: CountTable, rows: seq<(int, int)>, i: nat)
    requires i < |Filled(t, rows)|
    ensures var e := Filled(t, rows)[i];
      match LastCount(rows, e.0)
      case Some(c) => e.1 == c
      case None => i < |t| && e.1 == t[i].1
    decreases |rows|
  {
    if rows != [] {
      var (v, c) := rows[0];
      var t' := SetCount(t, v, c);
      FilledLayout(t', rows[1..]);
      FilledCounts(t', rows[1..], i);
      LastCountCons(rows, Filled(t, rows)[i].0);
    }
  }

  /** When every reported value is already a code of df2, the fill appends nothing. */
  lemma {:induction false} FilledKeepsIndex(t: CountTable, rows: seq<(int, int)>)
    requires forall j :: 0 <= j < |rows| ==> HasCode(t, rows[j].0)
    ensures |Filled(t, rows)| == |t|
    decreases |rows|
  {
    if rows != [] {
      var t' := SetCount(t, rows[0].0, rows[0].1);
      forall j | 0 <= j < |rows[1..]| ensures HasCode(t', rows[1..][j].0) {
        assert rows[1..][j] == rows[j + 1];
        var k :| 0 <= k < |t| && t[k].0 == rows[j + 1].0;
        assert t'[k].0 == t[k].0;
      }
      FilledKeepsIndex(t', rows[1..]);
    }
  }

  /** Every reported value is a code of the filled df2. */
  lemma {:induction false} FilledStoresReported(t: CountTable, rows: seq<(int, int)>, j: nat)
    requires j < |rows|
    ensures HasCode(Filled(t, rows), rows[j].0)
    decreases |rows|
  {
    var t' := SetCount(t, rows[0].0, rows[0].1);
    FilledLayout(t', rows[1..]);
    if j == 0 {
      assert t'[if HasCode(t, rows[0].0) then (var i :| 0 <= i < |t| && t[i].0 == rows[0].0; i) else |t|].0 == rows[0].0;
    } else {
      FilledStoresReported(t', rows[1..], j - 1);
    }
  }

  /** A value is flagged exactly when the cursor reports it and the initial index lacks it (once, at its first report). */
  lemma {:induction false} FlaggedExactly(t: CountTable, rows: seq<(int, int)>, v: int)
    ensures v in Flagged(t, rows) <==> !HasCode(t, v) && exists j :: 0 <= j < |rows| && rows[j].0 == v
    decreases |rows|
  {
    if rows != [] {
      var t' := SetCount(t, rows[0].0, rows[0].1);
      FlaggedExactly(t', rows[1..], v);
      if HasCode(t', v) != HasCode(t, v) {
        assert v == rows[0].0;
      }
      if HasCode(t, v) {
        var i :| 0 <= i < |t| && t[i].0 == v;
        assert t'[i].0 == v;
      }
      if rows[0].0 == v {
        assert t'[if HasCode(t, v) then (var i :| 0 <= i < |t| && t[i].0 == v; i) else |t|].0 == v;
      }
      if exists j :: 0 <= j < |rows[1..]| && rows[1..][j].0 == v {
        var j :| 0 <= j < |rows[1..]| && rows[1..][j].0 == v;
        assert rows[j + 1].0 == v;
      }
      if exists j :: 0 <= j < |rows| && rows[j].0 == v {
        var j :| 0 <= j < |rows| && rows[j].0 == v;
        if j > 0 { assert rows[1..][j - 1].0 == v; }
      }
    }
  }

  /** One row of the cursor: flag, then assign. */
  lemma FillStep(t: CountTable, rows: seq<(int, int)>)
    requires rows != []
    ensures Filled(t, rows) == Filled(SetCount(t, rows[0].0, rows[0].1), rows[1..])
    ensures Flagged(t, rows) == (if HasCode(t, rows[0].0) then [] else [rows[0].0]) + Flagged(SetCount(t, rows[0].0, rows[0].1), rows[1..])
  {
  }

  /**
   * The cursor loop: for every row, flag a value missing from the index,
   * then assign its count. A cursor that raised part-way has already
   * delivered the rows before the failure; the rest of df2 keeps its counts.
   */
  method FillFromCursor(t: CountTable, cursor: Cursor<(int, int)>) returns (df2: CountTable, flagged: seq<int>)
    ensures df2 == Filled(t, cursor.rows)
    ensures flagged == Flagged(t, cursor.rows)
  {
    df2, flagged := t, [];
    var rest := cursor.rows;
    while rest != []
      invariant Filled(df2, rest) == Filled(t, cursor.rows)
      invariant flagged + Flagged(df2, rest) == Flagged(t, cursor.rows)
      decreases |rest|
    {
      var (v, c) := rest[0];
      FillStep(df2, rest);
      flagged := flagged + (if HasCode(df2, v) then [] else [v]);
      df2 := SetCount(df2, v, c);
      rest := rest[1..];
    }
    assert flagged + [] == flagged;
  }
}
