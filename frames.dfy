/**
 * The master result table of the overlay analyses and the way a run's table
 * is merged into it (habitat.py, representation.py and the AOI overlay
 * script): the master is archived as it was, `dfMas.update(run)` overwrites
 * the cells of keys present in both tables, and the run's keys the master
 * does not have are concatenated after the master rows.
 *
 * A table is a sequence of keyed rows; a row maps column names to cells and a
 * column missing from a row is NaN.
 */
module Frames {
  import opened Wrappers

  /** A cell: an integer, a finite float, a float infinity of the given sign, or text. */
  datatype Cell = IntCell(i: int) | RealCell(r: real) | InfCell(positive: bool) | TextCell(s: string)

  type Row = map<string, Cell>

  datatype Table<K> = Table(columns: set<string>, rows: seq<(K, Row)>)

  /** Every row only holds cells of the table's columns. */
  predicate Valid<K>(t: Table<K>)
  {
    forall i :: 0 <= i < |t.rows| ==> t.rows[i].1.Keys <= t.columns
  }

  /** The index of the table, in row order. */
  function Keys<K>(t: Table<K>): (ks: seq<K>)
    ensures |ks| == |t.rows|
    ensures forall i :: 0 <= i < |ks| ==> ks[i] == t.rows[i].0
  {
    seq(|t.rows|, i requires 0 <= i < |t.rows| => t.rows[i].0)
  }

  predicate UniqueKeys<K(==)>(t: Table<K>)
  {
    forall i, j :: 0 <= i < j < |t.rows| ==> t.rows[i].0 != t.rows[j].0
  }

  predicate HasKey<K(==)>(t: Table<K>, k: K)
  {
    exists i :: 0 <= i < |t.rows| && t.rows[i].0 == k
  }

  /** The row of the first occurrence of key k among rows. */
  function RowOf<K(==)>(rows: seq<(K, Row)>, k: K): (r: Row)
    requires exists i :: 0 <= i < |rows| && rows[i].0 == k
    ensures exists i :: 0 <= i < |rows| && rows[i] == (k, r) &&
              forall j :: 0 <= j < i ==> rows[j].0 != k
  {
    if rows[0].0 == k then rows[0].1
    else
      var r := RowOf(rows[1..], k);
      var i :| 0 <= i < |rows[1..]| && rows[1..][i] == (k, r) &&
                forall j :: 0 <= j < i ==> rows[1..][j].0 != k;
      assert rows[i + 1] == (k, r);
      r
  }

  /**
   * The new cells of a master row: every master column takes the run's cell
   * where the run has one (is not NaN) and keeps its own otherwise; columns
   * of the run that the master lacks are ignored.
   */
  function Overlay(cols: set<string>, old_: Row, new_: Row): (r: Row)
    ensures r.Keys == cols * (old_.Keys + new_.Keys)
    ensures forall c :: c in r ==> r[c] == if c in new_ then new_[c] else old_[c]
  {
    map c | c in cols && (c in new_ || c in old_) :: if c in new_ then new_[c] else old_[c]
  }

  /** The row at position i of the master after `master.update(run)`. */
  function UpdatedRow<K(==)>(master: Table<K>, run: Table<K>, i: nat): (e: (K, Row))
    requires i < |master.rows|
  {
    var (k, r) := master.rows[i];
    if HasKey(run, k) then (k, Overlay(master.columns, r, RowOf(run.rows, k))) else (k, r)
  }

  /** The master after `master.update(run)` (for a run whose index is unique). */
  function Updated<K(==)>(master: Table<K>, run: Table<K>): (t: Table<K>)
    ensures t.columns == master.columns && |t.rows| == |master.rows|
  {
    Table(master.columns, seq(|master.rows|, i requires 0 <= i < |master.rows| => UpdatedRow(master, run, i)))
  }

  /** The run's rows whose keys the master lacks, in run order (`run.reindex(newMod)`). */
  function NewRows<K(==)>(rows: seq<(K, Row)>, master: Table<K>): (r: seq<(K, Row)>)
    ensures |r| <= |rows|
    ensures forall i :: 0 <= i < |r| ==> r[i] in rows && !HasKey(master, r[i].0)
    ensures forall i :: 0 <= i < |rows| && !HasKey(master, rows[i].0) ==> rows[i] in r
  {
    if rows == [] then []
    else if HasKey(master, rows[0].0) then NewRows(rows[1..], master)
    else [rows[0]] + NewRows(rows[1..], master)
  }

  /** pd.concat([a, b]): the rows of a then those of b, over the union of the columns. */
  function Concat<K>(a: Table<K>, b: Table<K>): (t: Table<K>)
    ensures t.columns == a.columns + b.columns
    ensures |t.rows| == |a.rows| + |b.rows|
    ensures t.rows[..|a.rows|] == a.rows && t.rows[|a.rows|..] == b.rows
  {
    Table(a.columns + b.columns, a.rows + b.rows)
  }

  /** What the merge leaves behind: the archived copy, the returned table and the saved master. */
  datatype Merged<K> = Merged(archive: Table<K>, returned: Table<K>, saved: Table<K>)

  /**
   * The merge step. With no master file the run becomes the master and is
   * updated with itself, which changes nothing. With a master, pandas'
   * `update` reindexes the run like the master. Either way the new rows are
   * then taken with `run.reindex(newMod)`, and pandas refuses to reindex a
   * non-unique (GeoTiff, Zone) index to any other index, the empty one of
   * the no-master case included: a duplicated run key raises (None).
   */
  function Merge<K(==)>(master: Option<Table<K>>, run: Table<K>): Option<Merged<K>>
  {
    if !UniqueKeys(run) then None
    else if master.None? then Some(Merged(run, run, run))
    else
      var m := master.value;
      var u := Updated(m, run);
      Some(Merged(m, u, Concat(u, Table(run.columns, NewRows(run.rows, m)))))
  }

  /** Updating a table with itself changes nothing, which is why the no-master case keeps the run. */
  lemma UpdateWithItself<K>(t: Table<K>)
    requires Valid(t) && UniqueKeys(t)
    ensures Updated(t, t) == t
  {
    var u := Updated(t, t);
    forall i | 0 <= i < |t.rows| ensures u.rows[i] == t.rows[i] {
      var (k, r) := t.rows[i];
      assert HasKey(t, k);
      var r' := RowOf(t.rows, k);
      assert r' == r;
      assert Overlay(t.columns, r, r') == r;
    }
  }

  /** The master keeps its columns and its index, row for row. */
  lemma UpdatedKeepsIndex<K>(master: Table<K>, run: Table<K>)
    ensures Keys(Updated(master, run)) == Keys(master)
  {
  }

  /** A master row whose key the run does not have is left exactly as it was. */
  lemma UpdatedMasterOnly<K>(master: Table<K>, run: Table<K>, i: nat)
    requires i < |master.rows| && !HasKey(run, master.rows[i].0)
    ensures Updated(master, run).rows[i] == master.rows[i]
  {
  }

  /**
   * A master row whose key is in the run takes the run's values in every
   * shared column, keeps its own values in master columns the run row lacks,
   * and gains no column the master does not have.
   */
  lemma UpdatedShared<K>(master: Table<K>, run: Table<K>, i: nat, j: nat, c: string)
    requires UniqueKeys(run)
    requires i < |master.rows| && j < |run.rows| && master.rows[i].0 == run.rows[j].0
    ensures Updated(master, run).rows[i].0 == master.rows[i].0
    ensures c in master.columns && c in run.rows[j].1 ==>
              c in Updated(master, run).rows[i].1 && Updated(master, run).rows[i].1[c] == run.rows[j].1[c]
    ensures c in master.columns && c !in run.rows[j].1 && c in master.rows[i].1 ==>
              c in Updated(master, run).rows[i].1 && Updated(master, run).rows[i].1[c] == master.rows[i].1[c]
    ensures c !in master.columns ==> c !in Updated(master, run).rows[i].1
  {
    var k := master.rows[i].0;
    assert HasKey(run, k);
    var r := RowOf(run.rows, k);
    var j' :| 0 <= j' < |run.rows| && run.rows[j'] == (k, r) && forall l :: 0 <= l < j' ==> run.rows[l].0 != k;
    assert j' == j;
  }

  /** The update keeps the master's index, so it does not change which run rows are new. */
  lemma {:induction false} NewRowsAfterUpdate<K>(rows: seq<(K, Row)>, master: Table<K>, run: Table<K>)
    ensures NewRows(rows, Updated(master, run)) == NewRows(rows, master)
  {
    if rows != [] {
      NewRowsAfterUpdate(rows[1..], master, run);
      var k := rows[0].0;
      var u := Updated(master, run);
      if HasKey(master, k) {
        var i :| 0 <= i < |master.rows| && master.rows[i].0 == k;
        assert u.rows[i].0 == k;
      }
      if HasKey(u, k) {
        var i :| 0 <= i < |u.rows| && u.rows[i].0 == k;
        assert master.rows[i].0 == k;
      }
    }
  }

  /** The archive is the master as it was before the update, and the function returns the updated master. */
  lemma MergeArchive<K>(master: Table<K>, run: Table<K>)
    requires UniqueKeys(run)
    ensures Merge(Some(master), run).Some?
    ensures Merge(Some(master), run).value.archive == master
    ensures Merge(Some(master), run).value.returned == Updated(master, run)
  {
  }

  /**
   * The saved master is the updated master followed by exactly the run rows
   * whose keys are new, in run order; nothing of the run whose key the
   * master has is appended.
   */
  lemma MergeSaved<K>(master: Table<K>, run: Table<K>)
    requires UniqueKeys(run)
    ensures var s := Merge(Some(master), run).value.saved;
      s.rows[..|master.rows|] == Updated(master, run).rows &&
      s.rows[|master.rows|..] == NewRows(run.rows, master) &&
      s.columns == master.columns + run.columns
  {
  }

  /** A key of the saved master is a key of the old master or of the run, and every run key is saved. */
  lemma MergeSavedKeys<K>(master: Table<K>, run: Table<K>, k: K)
    requires UniqueKeys(run)
    ensures HasKey(Merge(Some(master), run).value.saved, k) <==> HasKey(master, k) || HasKey(run, k)
  {
    var u := Updated(master, run);
    var n := Table(run.columns, NewRows(run.rows, master));
    ConcatKeys(u, n, k);
    UpdatedKeys(master, run, k);
    NewRowsKeys(master, run, k);
  }

  lemma ConcatKeys<K>(a: Table<K>, b: Table<K>, k: K)
    ensures HasKey(Concat(a, b), k) <==> HasKey(a, k) || HasKey(b, k)
  {
    var c := Concat(a, b);
    if HasKey(c, k) {
      var i :| 0 <= i < |c.rows| && c.rows[i].0 == k;
      if i >= |a.rows| {
        assert b.rows[i - |a.rows|] == c.rows[i];
      } else {
        assert a.rows[i] == c.rows[i];
      }
    }
    if HasKey(a, k) {
      var i :| 0 <= i < |a.rows| && a.rows[i].0 == k;
      assert c.rows[i] == a.rows[i];
    }
    if HasKey(b, k) {
      var i :| 0 <= i < |b.rows| && b.rows[i].0 == k;
      assert c.rows[|a.rows| + i] == b.rows[i];
    }
  }

  lemma UpdatedKeys<K>(master: Table<K>, run: Table<K>, k: K)
    ensures HasKey(Updated(master, run), k) <==> HasKey(master, k)
  {
    var u := Updated(master, run);
    assert forall i :: 0 <= i < |u.rows| ==> u.rows[i].0 == master.rows[i].0;
  }

  lemma NewRowsKeys<K>(master: Table<K>, run: Table<K>, k: K)
    ensures HasKey(Table(run.columns, NewRows(run.rows, master)), k) <==> HasKey(run, k) && !HasKey(master, k)
  {
    var n := NewRows(run.rows, master);
    if HasKey(Table(run.columns, n), k) {
      var i :| 0 <= i < |n| && n[i].0 == k;
      var j :| 0 <= j < |run.rows| && run.rows[j] == n[i];
    }
    if HasKey(run, k) && !HasKey(master, k) {
      var j :| 0 <= j < |run.rows| && run.rows[j].0 == k;
      assert run.rows[j] in n;
      var i :| 0 <= i < |n| && n[i] == run.rows[j];
    }
  }

  /**
   * With no master file a run with unique keys is archived, returned and
   * saved as it is; one with a duplicated key raises when its new rows are
   * reindexed.
   */
  lemma MergeWithoutMaster<K>(run: Table<K>)
    ensures Merge(None, run) == if UniqueKeys(run) then Some(Merged(run, run, run)) else None
  {
  }

  /** With or without a master, a duplicated run key makes the merge raise; otherwise it succeeds. */
  lemma MergeFailsOnDuplicates<K>(master: Option<Table<K>>, run: Table<K>)
    ensures Merge(master, run).None? <==> !UniqueKeys(run)
  {
  }

  /** The master table the merge updates in place (`dfMas`). */
  class MasterFrame<K(==)> {
    var table: Table<K>

    constructor (t: Table<K>)
      ensures table == t
    {
      table := t;
    }

    /**
     * `dfMas.update(run)`: rewrites the master row by row. It raises (false,
     * nothing changed) when the run's index has a duplicate.
     */
    method Update(run: Table<K>) returns (ok: bool)
      modifies this
      ensures ok == UniqueKeys(run)
      ensures table == if ok then Updated(old(table), run) else old(table)
    {
      ok := UniqueKeys(run);
      if !ok {
        return;
      }
      ghost var start := table;
      var i := 0;
      while i < |table.rows|
        invariant 0 <= i <= |table.rows| == |start.rows|
        invariant table.columns == start.columns
        invariant forall j :: 0 <= j < i ==> table.rows[j] == UpdatedRow(start, run, j)
        invariant forall j :: i <= j < |table.rows| ==> table.rows[j] == start.rows[j]
      {
        var (k, r) := table.rows[i];
        if HasKey(run, k) {
          table := table.(rows := table.rows[i := (k, Overlay(table.columns, r, RowOf(run.rows, k)))]);
        }
        i := i + 1;
      }
    }

    /** `pd.concat([dfMas, run.reindex(newMod)])`, collecting the new keys in run order. */
    method WithNewRows(run: Table<K>) returns (saved: Table<K>)
      ensures saved == Concat(table, Table(run.columns, NewRows(run.rows, table)))
    {
      var added := [];
      var i := |run.rows|;
      while i > 0
        invariant 0 <= i <= |run.rows|
        invariant added == NewRows(run.rows[i..], table)
      {
        i := i - 1;
        assert run.rows[i..][1..] == run.rows[i + 1..];
        if !HasKey(table, run.rows[i].0) {
          added := [run.rows[i]] + added;
        }
      }
      assert run.rows[0..] == run.rows;
      saved := Concat(table, Table(run.columns, added));
    }
  }

  /** Loads the master (or takes the run), archives it, updates it and appends the new keys. */
  method SaveMaster<K(==)>(master: Option<Table<K>>, run: Table<K>) returns (r: Option<Merged<K>>)
    ensures r == Merge(master, run)
  {
    if master.None? {
      if !UniqueKeys(run) {
        return None;
      }
      return Some(Merged(run, run, run));
    }
    var frame := new MasterFrame(master.value);
    var archive := frame.table;
    var ok := frame.Update(run);
    if !ok {
      return None;
    }
    var saved := frame.WithNewRows(run);
    NewRowsAfterUpdate(run.rows, master.value, run);
    r := Some(Merged(archive, frame.table, saved));
  }
}
