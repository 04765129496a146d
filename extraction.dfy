/**
 * The snapshot-table extraction of `FinViz.get_data`, as functions over an
 * abstract table: each row's cells are read in label/value column pairs
 * (0, 1), (2, 3), …, (10, 11); inside a pair, label child i keys the stripped
 * text of value child i. The writes go into an insertion-ordered dict.
 */
module Extraction {
  import opened Wrappers
  import opened Errors
  import opened Seqs
  import opened Text
  import opened Dicts

  /** A `<td>` cell: the text of each of its child nodes, in document order. */
  type Cell = seq<string>

  /** A `<tr>` row: its `<td>` cells. */
  type Row = seq<Cell>

  /** The `snapshot-table2` table: its rows. */
  type Grid = seq<Row>

  /** One dict assignment `data[label] = value`. */
  type Entry = (string, string)

  /** `range(0, 11, 2)` yields six label columns, each followed by its value column. */
  const PairsPerRow: nat := 6

  /** The cells a row needs so that all six pairs can be read. */
  const RowWidth: nat := 2 * PairsPerRow

  /**
   * `zip(label_cell, value_cell)`: one write per child position present in both
   * cells, so as many writes as the shorter cell has children.
   */
  function ZipWrites(labels: Cell, values: Cell): (w: seq<Entry>)
    ensures |w| == if |labels| <= |values| then |labels| else |values|
  {
    if labels == [] || values == [] then []
    else [(labels[0], Strip(values[0]))] + ZipWrites(labels[1..], values[1..])
  }

  /** Write `t` of a column pair stores the stripped value child `t` under label child `t`. */
  lemma {:induction false} ZipAt(labels: Cell, values: Cell, t: nat)
    requires t < |labels| && t < |values|
    ensures ZipWrites(labels, values)[t] == (labels[t], Strip(values[t]))
  {
    if t > 0 {
      ZipAt(labels[1..], values[1..], t - 1);
    }
  }

  /** The writes of column pair `j` of `row`: label column `2j`, value column `2j + 1`. */
  function PairZip(row: Row, j: nat): seq<Entry>
    requires j < PairsPerRow && 2 * j + 1 < |row|
  {
    ZipWrites(row[2 * j], row[2 * j + 1])
  }

  /** The writes of the first `j` column pairs of `row`, pair by pair. */
  function PairWrites(row: Row, j: nat): seq<Entry>
    requires j <= PairsPerRow && 2 * j <= |row|
  {
    if j == 0 then [] else PairWrites(row, j - 1) + PairZip(row, j - 1)
  }

  /** The pairs of `row` read before the loop ends or indexing past the row's end raises. */
  function PairsRead(row: Row): nat {
    if |row| >= RowWidth then PairsPerRow else Half(|row|)
  }

  /** `n // 2`, counted two at a time: the number of whole pairs in `n` cells. */
  function Half(n: nat): (h: nat)
    ensures 2 * h <= n <= 2 * h + 1
  {
    if n < 2 then 0 else 1 + Half(n - 2)
  }

  /** Every write `row` causes: all six pairs of a full row, the complete pairs of a short one. */
  function RowWrites(row: Row): seq<Entry> {
    PairWrites(row, PairsRead(row))
  }

  /** A row too short for `cols[10]` and `cols[11]`: reading it raises IndexError. */
  predicate IsShort(row: Row) {
    |row| < RowWidth
  }

  /** The writes of `rows`, row after row. */
  function RowsWrites(rows: seq<Row>): seq<Entry> {
    if rows == [] then [] else RowsWrites(rows[..|rows| - 1]) + RowWrites(rows[|rows| - 1])
  }

  /**
   * Every write made before extraction stops: all rows before the first short
   * one, then the complete pairs of that short row.
   */
  function GridWrites(rows: Grid): seq<Entry> {
    var f := FirstWhere(rows, IsShort);
    RowsWrites(rows[..f]) + (if f < |rows| then RowWrites(rows[f]) else [])
  }

  /** What makes `get_data` raise: no table at all, or the first short row. */
  function ExtractError(table: Option<Grid>): (e: Option<Error>)
    ensures table.None? ==> e == Some(MissingTable)
    ensures table.Some? ==> (e.None? <==> forall i :: 0 <= i < |table.value| ==> !IsShort(table.value[i]))
  {
    match table
    case None => Some(MissingTable)
    case Some(rows) =>
      var f := FirstWhere(rows, IsShort);
      if f < |rows| then Some(ShortRow(f)) else None
  }

  /** `get_data` on an object whose `data` is still `{}`. */
  function Extract(table: Option<Grid>): Result<Dict<string, string>, Error> {
    match ExtractError(table)
    case Some(e) => Err(e)
    case None => Ok(PutAll(Empty(), RowsWrites(table.value)))
  }

  /** The writes of one more row. */
  lemma {:induction false} RowsWritesNext(rows: seq<Row>, i: nat)
    requires i < |rows|
    ensures RowsWrites(rows[..i + 1]) == RowsWrites(rows[..i]) + RowWrites(rows[i])
  {
    assert rows[..i + 1][..i] == rows[..i];
  }

  /** The writes of one more column pair. */
  lemma {:induction false} PairWritesNext(row: Row, j: nat)
    requires j < PairsPerRow && 2 * j + 1 < |row|
    ensures PairWrites(row, j + 1) == PairWrites(row, j) + ZipWrites(row[2 * j], row[2 * j + 1])
  {
  }

  /** `data` holds `start` overwritten by the first `j` column pairs of `row`. */
  ghost predicate PairsDone(start: Dict<string, string>, data: Dict<string, string>, row: Row, j: nat) {
    j <= PairsPerRow && 2 * j <= |row| && data == PutAll(start, PairWrites(row, j))
  }

  /** Reading one more column pair into a dict is reading the zipped pair after the earlier pairs. */
  lemma {:induction false} PairStep(start: Dict<string, string>, before: Dict<string, string>, after: Dict<string, string>, row: Row, j: nat)
    requires j < PairsPerRow && 2 * j + 1 < |row|
    requires PairsDone(start, before, row, j)
    requires after == PutAll(before, ZipWrites(row[2 * j], row[2 * j + 1]))
    ensures PairsDone(start, after, row, j + 1)
  {
    PairWritesNext(row, j);
    PutAllAppend(start, PairWrites(row, j), ZipWrites(row[2 * j], row[2 * j + 1]));
  }

  /** A row of at least twelve cells writes all six pairs. */
  lemma {:induction false} FullRowWrites(start: Dict<string, string>, data: Dict<string, string>, row: Row)
    requires !IsShort(row) && PairsDone(start, data, row, PairsPerRow)
    ensures data == PutAll(start, RowWrites(row))
  {
  }

  /** A short row whose label column `2j` is its last or missing cell writes its first `j` pairs. */
  lemma {:induction false} ShortRowWrites(start: Dict<string, string>, data: Dict<string, string>, row: Row, j: nat)
    requires PairsDone(start, data, row, j) && j < PairsPerRow && |row| <= 2 * j + 1
    ensures data == PutAll(start, RowWrites(row))
  {
  }

  /** With no short row, extraction succeeds and every row is written. */
  lemma {:induction false} GridWritesFull(rows: Grid)
    requires forall r :: 0 <= r < |rows| ==> !IsShort(rows[r])
    ensures ExtractError(Some(rows)) == None
    ensures GridWrites(rows) == RowsWrites(rows)
  {
    assert rows[..|rows|] == rows;
  }

  /** Row `i` is the first short row: extraction fails there after writing what came before. */
  lemma {:induction false} GridWritesShort(rows: Grid, i: nat)
    requires i < |rows| && IsShort(rows[i])
    requires forall r :: 0 <= r < i ==> !IsShort(rows[r])
    ensures ExtractError(Some(rows)) == Some(ShortRow(i))
    ensures GridWrites(rows) == RowsWrites(rows[..i]) + RowWrites(rows[i])
  {
  }

  /** Write `e` comes from child `t` of column pair `j` of `row`. */
  ghost predicate PairEntry(row: Row, j: nat, t: nat, e: Entry) {
    && j < PairsPerRow && 2 * j + 1 < |row|
    && t < |row[2 * j]| && t < |row[2 * j + 1]|
    && e == (row[2 * j][t], Strip(row[2 * j + 1][t]))
  }

  /** The writes of pair `j` are exactly the zipped children of columns `2j` and `2j + 1`. */
  lemma {:induction false} ZipOrigin(row: Row, j: nat)
    requires j < PairsPerRow && 2 * j + 1 < |row|
    ensures forall e :: e in PairZip(row, j) ==> exists t: nat :: PairEntry(row, j, t, e)
    ensures forall t: nat, e :: PairEntry(row, j, t, e) ==> e in PairZip(row, j)
  {
    var z := PairZip(row, j);
    forall e | e in z ensures exists t: nat :: PairEntry(row, j, t, e) {
      var t :| 0 <= t < |z| && z[t] == e;
      ZipAt(row[2 * j], row[2 * j + 1], t);
      assert PairEntry(row, j, t, e);
    }
    forall t: nat, e | PairEntry(row, j, t, e) ensures e in z {
      ZipAt(row[2 * j], row[2 * j + 1], t);
      assert z[t] == e;
    }
  }

  /** Every write of the first `j` pairs comes from a child of one of those pairs. */
  lemma {:induction false} PairWritesFromPairs(row: Row, j: nat)
    requires j <= PairsPerRow && 2 * j <= |row|
    ensures forall e :: e in PairWrites(row, j) ==> exists p: nat, t: nat :: p < j && PairEntry(row, p, t, e)
  {
    if j > 0 {
      PairWritesFromPairs(row, j - 1);
      ZipOrigin(row, j - 1);
      var front, z := PairWrites(row, j - 1), PairZip(row, j - 1);
      forall e | e in front + z ensures exists p: nat, t: nat :: p < j && PairEntry(row, p, t, e) {
        if e in front {
          var p: nat, t: nat :| p < j - 1 && PairEntry(row, p, t, e);
        } else {
          var t: nat :| PairEntry(row, j - 1, t, e);
        }
      }
    }
  }

  /** Every child of the first `j` pairs is written by them. */
  lemma {:induction false} PairsWritten(row: Row, j: nat)
    requires j <= PairsPerRow && 2 * j <= |row|
    ensures forall p: nat, t: nat, e :: p < j && PairEntry(row, p, t, e) ==> e in PairWrites(row, j)
  {
    if j > 0 {
      PairsWritten(row, j - 1);
      ZipOrigin(row, j - 1);
    }
  }

  /** Every write of a row comes from one of its column pairs (0, 1) … (10, 11), and vice versa. */
  lemma {:induction false} RowWritesOrigin(row: Row)
    ensures forall e :: e in RowWrites(row) ==> exists j: nat, t: nat :: PairEntry(row, j, t, e)
    ensures forall j: nat, t: nat, e :: PairEntry(row, j, t, e) ==> e in RowWrites(row)
  {
    PairWritesFromPairs(row, PairsRead(row));
    PairsWritten(row, PairsRead(row));
  }

  /** The first `j` pairs never look past column `2j - 1`: rows that agree up to it write the same. */
  lemma {:induction false} PairWritesPrefix(a: Row, b: Row, j: nat)
    requires j <= PairsPerRow && 2 * j <= |a| && 2 * j <= |b|
    requires forall c :: 0 <= c < 2 * j ==> a[c] == b[c]
    ensures PairWrites(a, j) == PairWrites(b, j)
  {
    if j > 0 {
      PairWritesPrefix(a, b, j - 1);
      assert a[2 * j - 2] == b[2 * j - 2] && a[2 * j - 1] == b[2 * j - 1];
    }
  }

  /** Cells after the twelfth are never read: rows that agree on their first twelve cells write the same. */
  lemma {:induction false} ExtraColumnsIgnored(a: Row, b: Row)
    requires |a| >= RowWidth && |b| >= RowWidth
    requires forall c :: 0 <= c < RowWidth ==> a[c] == b[c]
    ensures RowWrites(a) == RowWrites(b)
  {
    PairWritesPrefix(a, b, PairsPerRow);
  }

  /**
   * Last write wins: a successfully extracted dict maps each label to the
   * stripped value of its last occurrence in the table, in row-major,
   * pair-by-pair, child-by-child order.
   */
  lemma {:induction false} ExtractLastWriteWins(table: Option<Grid>, k: string)
    requires Extract(table).Ok?
    ensures Extract(table).value.Get(k) == LastWrite(RowsWrites(table.value), k)
  {
    LastWriteWins(Empty(), RowsWrites(table.value), k);
  }

  /** The extracted dict lists its labels in the order of their first occurrence in the table. */
  lemma {:induction false} ExtractKeyOrder(table: Option<Grid>)
    requires Extract(table).Ok?
    ensures Extract(table).value.keys == FirstSeen(Labels(RowsWrites(table.value)))
  {
    PutAllKeys(RowsWrites(table.value));
  }

  /** Column pairs whose cells are both empty write nothing. */
  lemma {:induction false} EmptyPairsWriteNothing(row: Row, i: nat, j: nat)
    requires i <= j <= PairsPerRow && 2 * j <= |row|
    requires forall c :: 2 * i <= c < 2 * j ==> row[c] == []
    ensures PairWrites(row, j) == PairWrites(row, i)
  {
    if i < j {
      EmptyPairsWriteNothing(row, i, j - 1);
      assert row[2 * (j - 1)] == [];
      assert PairZip(row, j - 1) == [];
      assert PairWrites(row, j) == PairWrites(row, j - 1) + [];
    }
  }

  /** A pair whose cells hold one child each writes that one label/value. */
  lemma {:induction false} SinglePairZip(row: Row, p: nat, key: string, value: string)
    requires p < PairsPerRow && 2 * p + 1 < |row|
    requires row[2 * p] == [key] && row[2 * p + 1] == [value]
    requires Strip(value) == value
    ensures PairZip(row, p) == [(key, value)]
  {
    assert ZipWrites([key], [value]) == [(key, Strip(value))] + ZipWrites([], []);
  }

  /** The writes of the row used in DuplicateLabelExample. */
  lemma {:induction false} DuplicateRowWrites(row: Row)
    requires |row| == RowWidth
    requires row[0] == ["P/E"] && row[1] == ["10"] && row[2] == ["P/E"] && row[3] == ["20"]
    requires forall c :: 4 <= c < RowWidth ==> row[c] == []
    ensures RowWrites(row) == [("P/E", "10"), ("P/E", "20")]
  {
    DuplicatePairWrites(row);
    EmptyPairsWriteNothing(row, 2, PairsPerRow);
  }

  /** The first two pairs of that row write "P/E" twice. */
  lemma {:induction false} DuplicatePairWrites(row: Row)
    requires 4 <= |row|
    requires row[0] == ["P/E"] && row[1] == ["10"] && row[2] == ["P/E"] && row[3] == ["20"]
    ensures PairWrites(row, 2) == [("P/E", "10"), ("P/E", "20")]
  {
    StripUnspaced("10");
    StripUnspaced("20");
    SinglePairZip(row, 0, "P/E", "10");
    SinglePairZip(row, 1, "P/E", "20");
    assert PairWrites(row, 1) == [("P/E", "10")];
  }

  /**
   * A label that occurs twice keeps its first position and its last value:
   * "P/E" with "10" in pair (0, 1) and "20" in pair (2, 3) extracts to {"P/E": "20"}.
   */
  lemma {:induction false} DuplicateLabelExample(row: Row)
    requires |row| == RowWidth
    requires row[0] == ["P/E"] && row[1] == ["10"] && row[2] == ["P/E"] && row[3] == ["20"]
    requires forall c :: 4 <= c < RowWidth ==> row[c] == []
    ensures var r := Extract(Some([row])); r.Ok? && r.value.Get("P/E") == Some("20") && r.value.keys == ["P/E"]
  {
    DuplicateRowWrites(row);
    ExtractSingleRow(row);
    DuplicateWritesResult(RowWrites(row));
  }

  /** A table of one full row extracts to that row's writes. */
  lemma {:induction false} ExtractSingleRow(row: Row)
    requires |row| >= RowWidth
    ensures Extract(Some([row])) == Ok(PutAll(Empty(), RowWrites(row)))
  {
    assert [row][..0] == [];
    assert RowsWrites([row]) == RowWrites(row);
  }

  /** Writing "P/E" twice leaves one key holding the second value. */
  lemma {:induction false} DuplicateWritesResult(w: seq<Entry>)
    requires w == [("P/E", "10"), ("P/E", "20")]
    ensures PutAll(Empty(), w).Get("P/E") == Some("20")
    ensures PutAll(Empty(), w).keys == ["P/E"]
  {
    LastWriteWins(Empty(), w, "P/E");
    PutAllKeys(w);
    var ks := Labels(w);
    assert ks == ["P/E", "P/E"];
    assert ks[..1] == ["P/E"] && ks[..1][..0] == [];
    assert FirstSeen(ks[..1]) == ["P/E"];
  }
}
