/**
 * The result-table accumulator, on values: how one region's result row is
 * merged into the output table and the map from feature key to row index.
 * The imperative `_processResults` in module Logic is proved to compute
 * exactly `Merge` below.
 */
module Accumulator {
  import opened Tables
  import Text

  /** The three fixed columns `_initOutputTable` leaves in the output table. */
  const Headers: seq<string> := ["Image type", "Feature Class", "Feature Name"]

  /** One column of the CLI's one-row output table: its name (the feature key) and the text in row 0. */
  datatype ResultCell = ResultCell(key: string, value: string)

  type ResultRow = seq<ResultCell>

  /** `featureKey.split('_', 3)`. */
  function KeyParts(key: string): seq<string>
  {
    Text.Split(key, '_', 3)
  }

  /** A key that splits into at least three parts gets a row. */
  predicate IsFeatureKey(key: string)
  {
    |KeyParts(key)| >= 3
  }

  /** A key skipped with a warning: too few parts, and not one of the two expected input keys. */
  predicate WarnsOnSkip(key: string)
  {
    !IsFeatureKey(key) && key != "Image" && key != "Mask"
  }

  /** A key has at least three parts exactly when it has at least two underscores. */
  lemma FeatureKeyUnderscores(key: string)
    ensures IsFeatureKey(key) <==> Text.Occurrences(key, '_') >= 2
  {
    Text.SplitCount(key, '_', 3);
  }

  /** The output table together with `_featureNames`, the row index of each feature key. */
  datatype Acc = Acc(table: TableValue, rows: map<string, nat>)

  /** Row `row` shows the image type, feature class and feature name of `key`. */
  ghost predicate ShowsKey(t: TableValue, row: nat, key: string)
    requires WellFormed(t) && |t.columns| >= 3 && row < t.rowCount && IsFeatureKey(key)
  {
    var parts := KeyParts(key);
    Cell(t, row, 0) == parts[0] && Cell(t, row, 1) == parts[1] && Cell(t, row, 2) == parts[2]
  }

  /**
   * The structural half of the accumulator's invariant: one row per
   * recorded key and no other rows, and distinct keys on distinct rows.
   */
  ghost predicate Indexed(a: Acc)
  {
    && WellFormed(a.table)
    && |a.table.columns| >= 3
    && |a.rows| == a.table.rowCount
    && (forall k :: k in a.rows ==> a.rows[k] < a.table.rowCount)
    && (forall k1, k2 :: k1 in a.rows && k2 in a.rows && a.rows[k1] == a.rows[k2] ==> k1 == k2)
  }

  /** The other half: every recorded key is a feature key, and its row shows the key's first three parts. */
  ghost predicate Labelled(a: Acc)
    requires Indexed(a)
  {
    forall k :: k in a.rows ==> IsFeatureKey(k) && ShowsKey(a.table, a.rows[k], k)
  }

  /** The accumulator's invariant. */
  ghost predicate Consistent(a: Acc)
  {
    Indexed(a) && Labelled(a)
  }

  /** The accumulator right after `_initOutputTable`: the header columns, no rows, no keys. */
  function Initial(): (a: Acc)
    ensures Consistent(a) && Names(a.table) == Headers && a.table.rowCount == 0
  {
    Acc(HeaderTable(|Headers|), map[])
  }

  /** An empty table after adding the first `n` header columns, one at a time. */
  function HeaderTable(n: nat): (t: TableValue)
    requires n <= |Headers|
    ensures WellFormed(t) && t.rowCount == 0 && Names(t) == Headers[..n]
  {
    if n == 0 then TableValue([], 0)
    else
      var t := WithColumn(HeaderTable(n - 1), Headers[n - 1]);
      assert Headers[..n] == Headers[..n - 1] + [Headers[n - 1]];
      t
  }

  /** A new row for an unseen key, showing the key's first three parts. */
  function AddFeatureRow(a: Acc, key: string): Acc
    requires Indexed(a) && IsFeatureKey(key) && key !in a.rows
  {
    var parts := KeyParts(key);
    Acc(WithRow(a.table, [parts[0], parts[1], parts[2]]), a.rows[key := a.table.rowCount])
  }

  /** The new key gets the new row, which no other key has. */
  lemma AddFeatureRowIndexed(a: Acc, key: string)
    requires Indexed(a) && IsFeatureKey(key) && key !in a.rows
    ensures var r := AddFeatureRow(a, key);
      Indexed(r) && r.rows == a.rows[key := a.table.rowCount]
  {
    var r := AddFeatureRow(a, key);
    assert |r.rows| == |a.rows| + 1;
    forall k1, k2 | k1 in r.rows && k2 in r.rows && r.rows[k1] == r.rows[k2] ensures k1 == k2 {
      if k1 != key && k2 != key {
        assert a.rows[k1] == a.rows[k2];
      }
    }
  }

  /** One iteration of the loop in `_processResults`, writing into column `col`. */
  function MergeCell(a: Acc, col: nat, c: ResultCell): (r: Acc)
    requires Indexed(a) && 3 <= col < |a.table.columns|
    ensures Indexed(r) && Names(r.table) == Names(a.table)
  {
    if !IsFeatureKey(c.key) then a
    else if c.key in a.rows then Acc(WithCell(a.table, a.rows[c.key], col, c.value), a.rows)
    else
      AddFeatureRowIndexed(a, c.key);
      var b := AddFeatureRow(a, c.key);
      Acc(WithCell(b.table, b.rows[c.key], col, c.value), b.rows)
  }

  /** The loop of `_processResults` over the result row, writing into column `col`. */
  function MergeCells(a: Acc, col: nat, cells: ResultRow): (r: Acc)
    requires Indexed(a) && 3 <= col < |a.table.columns|
    ensures Indexed(r) && Names(r.table) == Names(a.table)
    decreases |cells|
  {
    if cells == [] then a
    else MergeCell(MergeCells(a, col, cells[..|cells| - 1]), col, cells[|cells| - 1])
  }

  /**
   * `_processResults` with both tables present: a new column named after
   * the region, then the loop; merging adds exactly that column and
   * renames nothing.
   */
  function Merge(a: Acc, columnName: string, cells: ResultRow): (r: Acc)
    requires Indexed(a)
    ensures Indexed(r) && Names(r.table) == Names(a.table) + [columnName]
  {
    MergeCells(Acc(WithColumn(a.table, columnName), a.rows), |a.table.columns|, cells)
  }

  /** Writing a value outside the header columns keeps every key's row showing the key. */
  lemma WithValueLabelled(a: Acc, row: nat, col: nat, text: string)
    requires Consistent(a) && 3 <= col < |a.table.columns| && row < a.table.rowCount
    ensures Consistent(Acc(WithCell(a.table, row, col, text), a.rows))
  {
    var t := WithCell(a.table, row, col, text);
    forall k | k in a.rows ensures ShowsKey(t, a.rows[k], k) {
      assert ShowsKey(a.table, a.rows[k], k);
    }
  }

  /** Adding a column keeps every key's row showing the key. */
  lemma WithColumnLabelled(a: Acc, columnName: string)
    requires Consistent(a)
    ensures Consistent(Acc(WithColumn(a.table, columnName), a.rows))
  {
    var t := WithColumn(a.table, columnName);
    forall k | k in a.rows ensures ShowsKey(t, a.rows[k], k) {
      assert ShowsKey(a.table, a.rows[k], k);
    }
  }

  /** After a new row, every recorded key, old or new, has a row that shows it. */
  lemma AddFeatureRowLabelled(a: Acc, key: string)
    requires Consistent(a) && IsFeatureKey(key) && key !in a.rows
    ensures Consistent(AddFeatureRow(a, key))
  {
    var r := AddFeatureRow(a, key);
    AddFeatureRowIndexed(a, key);
    forall k | k in r.rows ensures IsFeatureKey(k) && ShowsKey(r.table, r.rows[k], k) {
      if k != key {
        assert ShowsKey(a.table, a.rows[k], k);
      }
    }
  }

  /** One merge step keeps the accumulator's invariant. */
  lemma MergeCellLabelled(a: Acc, col: nat, c: ResultCell)
    requires Consistent(a) && 3 <= col < |a.table.columns|
    ensures Consistent(MergeCell(a, col, c))
  {
    if !IsFeatureKey(c.key) {
    } else if c.key in a.rows {
      WithValueLabelled(a, a.rows[c.key], col, c.value);
    } else {
      AddFeatureRowLabelled(a, c.key);
      AddFeatureRowIndexed(a, c.key);
      var b := AddFeatureRow(a, c.key);
      WithValueLabelled(b, a.table.rowCount, col, c.value);
    }
  }

  /** The loop keeps the accumulator's invariant. */
  lemma {:induction false} MergeCellsLabelled(a: Acc, col: nat, cells: ResultRow)
    requires Consistent(a) && 3 <= col < |a.table.columns|
    ensures Consistent(MergeCells(a, col, cells))
    decreases |cells|
  {
    if cells != [] {
      MergeCellsLabelled(a, col, cells[..|cells| - 1]);
      MergeCellLabelled(MergeCells(a, col, cells[..|cells| - 1]), col, cells[|cells| - 1]);
    }
  }

  /** One merge step on the key map: the key gets a row if it has none, and no key moves. */
  lemma MergeCellRows(a: Acc, col: nat, c: ResultCell)
    requires Indexed(a) && 3 <= col < |a.table.columns|
    ensures var r := MergeCell(a, col, c);
      && (forall k :: k in r.rows <==> k in a.rows || (IsFeatureKey(c.key) && k == c.key))
      && (forall k :: k in a.rows ==> r.rows[k] == a.rows[k])
      && (IsFeatureKey(c.key) && c.key !in a.rows ==> r.rows[c.key] == a.table.rowCount)
  {
    var r := MergeCell(a, col, c);
    if !IsFeatureKey(c.key) {
      assert r == a;
    } else if c.key in a.rows {
      assert r.rows == a.rows;
    } else {
      AddFeatureRowIndexed(a, c.key);
      assert r.rows == AddFeatureRow(a, c.key).rows;
    }
  }

  /** A key that already has a row: only its cell in column `col` changes. */
  lemma MergeCellExisting(a: Acc, col: nat, c: ResultCell)
    requires Indexed(a) && 3 <= col < |a.table.columns|
    requires IsFeatureKey(c.key) && c.key in a.rows
    ensures var r := MergeCell(a, col, c);
      && r.table.rowCount == a.table.rowCount
      && (forall i, j :: 0 <= i < r.table.rowCount && 0 <= j < |r.table.columns| ==>
            Cell(r.table, i, j) == if i == a.rows[c.key] && j == col then c.value else Cell(a.table, i, j))
  {
    var r := MergeCell(a, col, c);
    assert r.table == WithCell(a.table, a.rows[c.key], col, c.value);
  }

  /** An unseen feature key: a row is appended for it, and the old rows keep every cell. */
  lemma MergeCellNewOld(a: Acc, col: nat, c: ResultCell)
    requires Indexed(a) && 3 <= col < |a.table.columns|
    requires IsFeatureKey(c.key) && c.key !in a.rows
    ensures var r := MergeCell(a, col, c);
      && r.table.rowCount == a.table.rowCount + 1
      && r.rows[c.key] == a.table.rowCount
      && (forall i, j :: 0 <= i < a.table.rowCount && 0 <= j < |r.table.columns| ==> Cell(r.table, i, j) == Cell(a.table, i, j))
  {
    var b := AddFeatureRow(a, c.key);
    assert MergeCell(a, col, c).table == WithCell(b.table, a.table.rowCount, col, c.value);
  }

  /**
   * The row appended for an unseen feature key shows the key's parts,
   * holds the value in column `col` and is blank elsewhere.
   */
  lemma MergeCellNewRow(a: Acc, col: nat, c: ResultCell)
    requires Indexed(a) && 3 <= col < |a.table.columns|
    requires IsFeatureKey(c.key) && c.key !in a.rows
    ensures var r := MergeCell(a, col, c); var n := a.table.rowCount;
      && r.table.rowCount == n + 1
      && (forall j :: 0 <= j < |r.table.columns| ==>
            Cell(r.table, n, j) == if j < 3 then KeyParts(c.key)[j] else if j == col then c.value else "")
  {
    var n := a.table.rowCount;
    var parts := KeyParts(c.key);
    var texts := [parts[0], parts[1], parts[2]];
    var b := WithRow(a.table, texts);
    var r := WithCell(b, n, col, c.value);
    assert MergeCell(a, col, c).table == r;
    forall j | 0 <= j < |r.columns|
      ensures Cell(r, n, j) == if j < 3 then parts[j] else if j == col then c.value else ""
    {
      assert Cell(r, n, j) == if j == col then c.value else Cell(b, n, j);
      assert Cell(b, n, j) == if j < 3 then texts[j] else "";
    }
  }

  /** One merge step as seen in column `col` alone. */
  lemma MergeCellColumn(a: Acc, col: nat, c: ResultCell)
    requires Indexed(a) && 3 <= col < |a.table.columns|
    ensures var r := MergeCell(a, col, c);
      && r.table.rowCount >= a.table.rowCount
      && (IsFeatureKey(c.key) ==> c.key in r.rows)
      && (forall i :: 0 <= i < r.table.rowCount ==>
            Cell(r.table, i, col) ==
              if IsFeatureKey(c.key) && i == r.rows[c.key] then c.value
              else if i < a.table.rowCount then Cell(a.table, i, col)
              else "")
  {
    if !IsFeatureKey(c.key) {
    } else if c.key in a.rows {
      MergeCellExisting(a, col, c);
    } else {
      MergeCellNewOld(a, col, c);
      MergeCellNewRow(a, col, c);
    }
  }

  /** One merge step writes no column outside the header columns but `col`; a new row is blank there. */
  lemma MergeCellOthers(a: Acc, col: nat, c: ResultCell)
    requires Indexed(a) && 3 <= col < |a.table.columns|
    ensures var r := MergeCell(a, col, c);
      && r.table.rowCount >= a.table.rowCount
      && (forall i, j :: 0 <= i < r.table.rowCount && 3 <= j < |r.table.columns| && j != col ==>
            Cell(r.table, i, j) == if i < a.table.rowCount then Cell(a.table, i, j) else "")
  {
    if !IsFeatureKey(c.key) {
    } else if c.key in a.rows {
      MergeCellExisting(a, col, c);
    } else {
      MergeCellNewOld(a, col, c);
      MergeCellNewRow(a, col, c);
    }
  }

  /** One merge step leaves the header cells of the old rows alone. */
  lemma MergeCellHeaders(a: Acc, col: nat, c: ResultCell)
    requires Indexed(a) && 3 <= col < |a.table.columns|
    ensures var r := MergeCell(a, col, c);
      && r.table.rowCount >= a.table.rowCount
      && (forall i, j :: 0 <= i < a.table.rowCount && 0 <= j < 3 ==> Cell(r.table, i, j) == Cell(a.table, i, j))
  {
    if !IsFeatureKey(c.key) {
    } else if c.key in a.rows {
      MergeCellExisting(a, col, c);
    } else {
      MergeCellNewOld(a, col, c);
    }
  }

  /** One merge step leaves the cell of every other recorded key alone. */
  lemma MergeCellKeeps(a: Acc, col: nat, c: ResultCell, k: string)
    requires Indexed(a) && 3 <= col < |a.table.columns|
    requires k in a.rows && k != c.key
    ensures var r := MergeCell(a, col, c);
      k in r.rows && r.rows[k] == a.rows[k] && Cell(r.table, r.rows[k], col) == Cell(a.table, a.rows[k], col)
  {
    var r := MergeCell(a, col, c);
    MergeCellRows(a, col, c);
    MergeCellColumn(a, col, c);
    if IsFeatureKey(c.key) {
      assert r.rows[k] != r.rows[c.key];
    }
  }

  /** The keys of a result row that get a row in the table. */
  function FeatureKeys(cells: ResultRow): set<string>
  {
    set c | c in cells && IsFeatureKey(c.key) :: c.key
  }

  lemma FeatureKeysSnoc(cells: ResultRow)
    requires cells != []
    ensures var last := cells[|cells| - 1];
      FeatureKeys(cells) == FeatureKeys(cells[..|cells| - 1]) + (if IsFeatureKey(last.key) then {last.key} else {})
  {
    var init, last := cells[..|cells| - 1], cells[|cells| - 1];
    assert cells == init + [last];
    forall k | k in FeatureKeys(cells)
      ensures k in FeatureKeys(init) || (IsFeatureKey(last.key) && k == last.key)
    {
      var c :| c in cells && IsFeatureKey(c.key) && c.key == k;
      if c != last {
        assert c in init;
      }
    }
  }

  /**
   * Row stability and the key set: a key seen before keeps its row, and
   * afterwards exactly the old keys and the row's feature keys have rows.
   */
  lemma {:induction false} MergeCellsRows(a: Acc, col: nat, cells: ResultRow)
    requires Indexed(a) && 3 <= col < |a.table.columns|
    ensures var r := MergeCells(a, col, cells);
      && (forall k :: k in r.rows <==> k in a.rows || k in FeatureKeys(cells))
      && (forall k :: k in a.rows ==> r.rows[k] == a.rows[k])
      && r.table.rowCount >= a.table.rowCount
    decreases |cells|
  {
    if cells != [] {
      var init := cells[..|cells| - 1];
      MergeCellsRows(a, col, init);
      MergeCellRows(MergeCells(a, col, init), col, cells[|cells| - 1]);
      FeatureKeysSnoc(cells);
    }
  }

  /** The value the last cell with key `k` carries: the one the loop writes last. */
  function ValueFor(cells: ResultRow, k: string): string
    requires k in FeatureKeys(cells)
    decreases |cells|
  {
    FeatureKeysSnoc(cells);
    if cells[|cells| - 1].key == k then cells[|cells| - 1].value
    else ValueFor(cells[..|cells| - 1], k)
  }

  /** Row `i` is the row of one of the result's feature keys. */
  ghost predicate Written(r: Acc, cells: ResultRow, i: nat)
  {
    exists k :: k in FeatureKeys(cells) && k in r.rows && r.rows[k] == i
  }

  /** What the loop writes last for each feature key stays in that key's row of column `col`. */
  lemma {:induction false} MergeCellsValues(a: Acc, col: nat, cells: ResultRow)
    requires Indexed(a) && 3 <= col < |a.table.columns|
    ensures var r := MergeCells(a, col, cells);
      forall k :: k in FeatureKeys(cells) ==> k in r.rows && Cell(r.table, r.rows[k], col) == ValueFor(cells, k)
    decreases |cells|
  {
    if cells != [] {
      var init, last := cells[..|cells| - 1], cells[|cells| - 1];
      var p := MergeCells(a, col, init);
      var r := MergeCells(a, col, cells);
      MergeCellsValues(a, col, init);
      FeatureKeysSnoc(cells);
      forall k | k in FeatureKeys(cells) ensures k in r.rows && Cell(r.table, r.rows[k], col) == ValueFor(cells, k) {
        if k == last.key {
          MergeCellColumn(p, col, last);
        } else {
          assert k in FeatureKeys(init);
          MergeCellKeeps(p, col, last, k);
        }
      }
    }
  }

  /** A row that no feature key of the result maps to keeps its cell in column `col` (blank if new). */
  lemma {:induction false} MergeCellsUntouched(a: Acc, col: nat, cells: ResultRow)
    requires Indexed(a) && 3 <= col < |a.table.columns|
    ensures var r := MergeCells(a, col, cells);
      forall i :: 0 <= i < r.table.rowCount && !Written(r, cells, i) ==>
        Cell(r.table, i, col) == if i < a.table.rowCount then Cell(a.table, i, col) else ""
    decreases |cells|
  {
    if cells != [] {
      var init, last := cells[..|cells| - 1], cells[|cells| - 1];
      var p := MergeCells(a, col, init);
      var r := MergeCells(a, col, cells);
      MergeCellsUntouched(a, col, init);
      MergeCellsRows(a, col, init);
      MergeCellRows(p, col, last);
      MergeCellColumn(p, col, last);
      FeatureKeysSnoc(cells);
      forall i | 0 <= i < r.table.rowCount && !Written(r, cells, i)
        ensures Cell(r.table, i, col) == if i < a.table.rowCount then Cell(a.table, i, col) else ""
      {
        if IsFeatureKey(last.key) {
          assert last.key in FeatureKeys(cells);
        }
        if i < p.table.rowCount {
          forall k | k in FeatureKeys(init) && k in p.rows ensures p.rows[k] != i {
            assert k in FeatureKeys(cells) && r.rows[k] == p.rows[k];
          }
          assert !Written(p, init, i);
        }
      }
    }
  }

  /**
   * The loop touches no column but `col` outside the header columns: old
   * rows keep their cells there, new rows are blank.
   */
  lemma {:induction false} MergeCellsOthers(a: Acc, col: nat, cells: ResultRow)
    requires Indexed(a) && 3 <= col < |a.table.columns|
    ensures var r := MergeCells(a, col, cells);
      && r.table.rowCount >= a.table.rowCount
      && (forall i, j :: 0 <= i < r.table.rowCount && 3 <= j < |r.table.columns| && j != col ==>
            Cell(r.table, i, j) == if i < a.table.rowCount then Cell(a.table, i, j) else "")
    decreases |cells|
  {
    if cells != [] {
      var init, last := cells[..|cells| - 1], cells[|cells| - 1];
      var p := MergeCells(a, col, init);
      MergeCellsOthers(a, col, init);
      MergeCellOthers(p, col, last);
    }
  }

  /** The header cells of the rows that existed before are unchanged. */
  lemma {:induction false} MergeCellsHeaders(a: Acc, col: nat, cells: ResultRow)
    requires Indexed(a) && 3 <= col < |a.table.columns|
    ensures var r := MergeCells(a, col, cells);
      && r.table.rowCount >= a.table.rowCount
      && (forall i, j :: 0 <= i < a.table.rowCount && 0 <= j < 3 ==> Cell(r.table, i, j) == Cell(a.table, i, j))
    decreases |cells|
  {
    if cells != [] {
      var init, last := cells[..|cells| - 1], cells[|cells| - 1];
      var p := MergeCells(a, col, init);
      MergeCellsHeaders(a, col, init);
      MergeCellHeaders(p, col, last);
    }
  }

  /** Merging keeps the accumulator's invariant. */
  lemma MergeLabelled(a: Acc, columnName: string, cells: ResultRow)
    requires Consistent(a)
    ensures Consistent(Merge(a, columnName, cells))
  {
    WithColumnLabelled(a, columnName);
    MergeCellsLabelled(Acc(WithColumn(a.table, columnName), a.rows), |a.table.columns|, cells);
  }

  /**
   * Merging one region's result: every key seen before keeps its row, the
   * keys afterwards are the old ones plus the result's feature keys, and
   * the table has one row per key.
   */
  lemma MergeRows(a: Acc, columnName: string, cells: ResultRow)
    requires Indexed(a)
    ensures var r := Merge(a, columnName, cells);
      && (forall k :: k in r.rows <==> k in a.rows || k in FeatureKeys(cells))
      && (forall k :: k in a.rows ==> r.rows[k] == a.rows[k])
      && r.table.rowCount == |r.rows|
  {
    var b := Acc(WithColumn(a.table, columnName), a.rows);
    MergeCellsRows(b, |a.table.columns|, cells);
  }

  /**
   * The region's new column holds the result's value at the row of each of
   * its feature keys and is blank at every other row.
   */
  lemma MergeColumn(a: Acc, columnName: string, cells: ResultRow)
    requires Indexed(a)
    ensures var r := Merge(a, columnName, cells); var col := |a.table.columns|;
      && |r.table.columns| == col + 1
      && (forall k :: k in FeatureKeys(cells) ==> k in r.rows && Cell(r.table, r.rows[k], col) == ValueFor(cells, k))
      && (forall i :: 0 <= i < r.table.rowCount && !Written(r, cells, i) ==> Cell(r.table, i, col) == "")
  {
    var b := Acc(WithColumn(a.table, columnName), a.rows);
    var col := |a.table.columns|;
    assert Merge(a, columnName, cells) == MergeCells(b, col, cells);
    MergeCellsValues(b, col, cells);
    MergeCellsUntouched(b, col, cells);
  }

  /**
   * Every cell that existed before keeps its text, and the new rows are
   * blank outside the header columns and the new column.
   */
  lemma MergeKeeps(a: Acc, columnName: string, cells: ResultRow)
    requires Indexed(a)
    ensures var r := Merge(a, columnName, cells); var col := |a.table.columns|;
      && |r.table.columns| == col + 1 && r.table.rowCount >= a.table.rowCount
      && (forall i, j :: 0 <= i < a.table.rowCount && 0 <= j < col ==> Cell(r.table, i, j) == Cell(a.table, i, j))
      && (forall i, j :: a.table.rowCount <= i < r.table.rowCount && 3 <= j < col ==> Cell(r.table, i, j) == "")
  {
    var b := Acc(WithColumn(a.table, columnName), a.rows);
    var col := |a.table.columns|;
    assert Merge(a, columnName, cells) == MergeCells(b, col, cells);
    var r := MergeCells(b, col, cells);
    MergeCellsOthers(b, col, cells);
    MergeCellsHeaders(b, col, cells);
    forall i, j | 0 <= i < a.table.rowCount && 0 <= j < col ensures Cell(r.table, i, j) == Cell(a.table, i, j) {
      assert Cell(b.table, i, j) == Cell(a.table, i, j);
    }
  }
}
