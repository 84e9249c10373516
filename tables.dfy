/**
 * `ExtractTablesFromBlocks`: one forward pass over the blocks that opens a grid at every TABLE
 * block and writes every CELL block into the grid currently open, growing it with "" padding.
 */
module Tables {
  import opened Wrappers
  import opened Text
  import opened Blocks

  /** `TableData`: the page of a table and its rows of cell texts. */
  datatype TableData = TableData(page: int, rows: seq<seq<string>>)

  function Max(a: int, b: int): int { if a < b then b else a }

  /** The width of row `r`, or 0 when the grid does not have that row yet. */
  function RowWidth(rows: seq<seq<string>>, r: nat): nat
  {
    if r < |rows| then |rows[r]| else 0
  }

  /** The grid after a cell with text `text` lands at 0-based position (`r`, `c`). */
  function WithCell(t: TableData, r: nat, c: nat, text: string): TableData
  {
    var rows := if r < |t.rows| then t.rows else t.rows + seq(r + 1 - |t.rows|, _ => []);
    var row := if c < |rows[r]| then rows[r] else rows[r] + seq(c + 1 - |rows[r]|, _ => "");
    TableData(t.page, rows[r := row[c := text]])
  }

  /**
   * After a cell is placed the rows, and the target row, have grown just enough to hold it;
   * the new slots are "", the target slot holds the text and every other slot keeps its value.
   */
  lemma WithCellPlacement(t: TableData, r: nat, c: nat, text: string)
    ensures var t' := WithCell(t, r, c, text);
      && t'.page == t.page
      && |t'.rows| == Max(|t.rows|, r + 1)
      && |t'.rows[r]| == Max(RowWidth(t.rows, r), c + 1)
      && t'.rows[r][c] == text
      && (forall i :: 0 <= i < |t'.rows| && i != r ==>
            t'.rows[i] == if i < |t.rows| then t.rows[i] else [])
      && (forall j :: 0 <= j < |t'.rows[r]| && j != c ==>
            t'.rows[r][j] == if j < RowWidth(t.rows, r) then t.rows[r][j] else "")
  {
  }

  /**
   * The body of the CELL case: pads the rows, then the target row, with `while` loops and
   * writes the text into its slot.
   */
  method PlaceCell(t: TableData, r: nat, c: nat, text: string) returns (t': TableData)
    ensures t' == WithCell(t, r, c, text)
  {
    var rows := t.rows;
    while |rows| <= r
      invariant |t.rows| <= |rows| <= Max(|t.rows|, r + 1)
      invariant rows == t.rows + seq(|rows| - |t.rows|, _ => [])
    {
      rows := rows + [[]];
    }
    assert rows == if r < |t.rows| then t.rows else t.rows + seq(r + 1 - |t.rows|, _ => []);
    var row := rows[r];
    while |row| <= c
      invariant |rows[r]| <= |row| <= Max(|rows[r]|, c + 1)
      invariant row == rows[r] + seq(|row| - |rows[r]|, _ => "")
    {
      row := row + [""];
    }
    assert row == if c < |rows[r]| then rows[r] else rows[r] + seq(c + 1 - |rows[r]|, _ => "");
    rows := rows[r := row[c := text]];
    t' := TableData(t.page, rows);
  }

  /** The state of the pass: the grids already emitted and the grid currently open, if any. */
  datatype Scan = Scan(closed: seq<TableData>, open: Option<TableData>)

  const Start := Scan([], None)

  /** The grids a state stands for once the pass ends: the open one is emitted last. */
  function Emitted(st: Scan): seq<TableData>
  {
    st.closed + if st.open.Some? then [st.open.value] else []
  }

  predicate HasTable(bs: seq<Block>)
  {
    exists j :: 0 <= j < |bs| && bs[j].blockType == Table
  }

  /**
   * What the code needs of its input: a CELL block that arrives while a table is open has
   * RowIndex >= 1 and ColumnIndex >= 1 (otherwise `Rows[-1]` is indexed).
   */
  predicate CellIndicesValid(bs: seq<Block>)
  {
    forall i, j :: 0 <= j < i < |bs| && bs[j].blockType == Table && bs[i].blockType == Cell ==>
      bs[i].rowIndex >= 1 && bs[i].columnIndex >= 1
  }

  /** A CELL block's trimmed text written into grid `t` at the cell's 1-based position. */
  function CellStep(all: seq<Block>, t: TableData, b: Block): TableData
    requires b.rowIndex >= 1 && b.columnIndex >= 1
  {
    WithCell(t, b.rowIndex - 1, b.columnIndex - 1, Trim(CellText(all, b)))
  }

  /** One iteration of the loop, on block `b`; `all` is the block list cell texts are looked up in. */
  function Step(all: seq<Block>, st: Scan, b: Block): Scan
    requires b.blockType == Cell && st.open.Some? ==> b.rowIndex >= 1 && b.columnIndex >= 1
  {
    if b.blockType == Table then
      Scan(Emitted(st), Some(TableData(b.page, [])))
    else if b.blockType == Cell && st.open.Some? then
      Scan(st.closed, Some(CellStep(all, st.open.value, b)))
    else
      st
  }

  /** The state after the loop has seen `bs`; a grid is open exactly when a TABLE block was seen. */
  function ScanBlocks(all: seq<Block>, bs: seq<Block>): (st: Scan)
    requires CellIndicesValid(bs)
    ensures st.open.Some? <==> HasTable(bs)
  {
    if bs == [] then Start
    else
      var init, b := bs[..|bs| - 1], bs[|bs| - 1];
      assert CellIndicesValid(init);
      var st := ScanBlocks(all, init);
      assert HasTable(init) ==> HasTable(bs);
      assert HasTable(bs) && b.blockType != Table ==> HasTable(init);
      Step(all, st, b)
  }

  /** The result of `ExtractTablesFromBlocks` on `blocks`. */
  function ExtractedTables(blocks: seq<Block>): seq<TableData>
    requires CellIndicesValid(blocks)
  {
    Emitted(ScanBlocks(blocks, blocks))
  }

  function Pages(tables: seq<TableData>): seq<int>
  {
    if tables == [] then [] else Pages(tables[..|tables| - 1]) + [tables[|tables| - 1].page]
  }

  /** The pages of the TABLE blocks of `bs`, in encounter order. */
  function TableBlockPages(bs: seq<Block>): seq<int>
  {
    if bs == [] then []
    else
      var b := bs[|bs| - 1];
      TableBlockPages(bs[..|bs| - 1]) + if b.blockType == Table then [b.page] else []
  }

  /** The body of the loop of `ExtractTablesFromBlocks`, on block `b`. */
  method ProcessBlock(blocks: seq<Block>, st: Scan, b: Block) returns (st': Scan)
    requires b.blockType == Cell && st.open.Some? ==> b.rowIndex >= 1 && b.columnIndex >= 1
    ensures st' == Step(blocks, st, b)
  {
    if b.blockType == Table {
      var tables := st.closed;
      if st.open.Some? {
        tables := tables + [st.open.value];
      }
      st' := Scan(tables, Some(TableData(b.page, [])));
    } else if b.blockType == Cell && st.open.Some? {
      var t := WriteCell(blocks, st.open.value, b);
      st' := Scan(st.closed, Some(t));
    } else {
      st' := st;
    }
  }

  /** The CELL case of the loop: the cell's text, trimmed, goes to its 1-based position. */
  method WriteCell(blocks: seq<Block>, t: TableData, b: Block) returns (t': TableData)
    requires b.rowIndex >= 1 && b.columnIndex >= 1
    ensures t' == CellStep(blocks, t, b)
  {
    var text := GetCellText(blocks, b);
    t' := PlaceCell(t, b.rowIndex - 1, b.columnIndex - 1, Trim(text));
  }

  /**
   * `ExtractTablesFromBlocks`: the pass over the blocks; the grid still open at the end is
   * emitted last.
   */
  method ExtractTablesFromBlocks(blocks: seq<Block>) returns (tables: seq<TableData>)
    requires CellIndicesValid(blocks)
    ensures tables == ExtractedTables(blocks)
    ensures Pages(tables) == TableBlockPages(blocks)
  {
    var st := Start;
    var i := 0;
    assert blocks[..0] == [];
    while i < |blocks|
      invariant 0 <= i <= |blocks|
      invariant CellIndicesValid(blocks[..i])
      invariant st == ScanBlocks(blocks, blocks[..i])
    {
      PrefixCellIndicesValid(blocks, i + 1);
      if blocks[i].blockType == Cell && st.open.Some? {
        OpenTableCellValid(blocks, i);
      }
      assert blocks[..i + 1][..i] == blocks[..i];
      st := ProcessBlock(blocks, st, blocks[i]);
      i := i + 1;
    }
    assert blocks[..i] == blocks;
    tables := st.closed + if st.open.Some? then [st.open.value] else [];
    TablesFollowTableBlocks(blocks, blocks);
  }

  /** A CELL block that arrives while a table is open has valid indices. */
  lemma OpenTableCellValid(bs: seq<Block>, i: nat)
    requires CellIndicesValid(bs) && i < |bs|
    requires HasTable(bs[..i]) && bs[i].blockType == Cell
    ensures bs[i].rowIndex >= 1 && bs[i].columnIndex >= 1
  {
    var j :| 0 <= j < i && bs[..i][j].blockType == Table;
    assert bs[j] == bs[..i][j];
  }

  /**
   * Exactly one grid per TABLE block, in encounter order, each carrying that block's page,
   * including grids that never receive a cell.
   */
  lemma {:induction false} TablesFollowTableBlocks(all: seq<Block>, bs: seq<Block>)
    requires CellIndicesValid(bs)
    ensures Pages(Emitted(ScanBlocks(all, bs))) == TableBlockPages(bs)
  {
    if bs != [] {
      var init, b := bs[..|bs| - 1], bs[|bs| - 1];
      PrefixCellIndicesValid(bs, |bs| - 1);
      TablesFollowTableBlocks(all, init);
      StepPages(all, ScanBlocks(all, init), b);
    }
  }

  /** One step adds the page of a TABLE block and keeps the pages otherwise. */
  lemma StepPages(all: seq<Block>, st: Scan, b: Block)
    requires b.blockType == Cell && st.open.Some? ==> b.rowIndex >= 1 && b.columnIndex >= 1
    ensures Pages(Emitted(Step(all, st, b)))
            == Pages(Emitted(st)) + if b.blockType == Table then [b.page] else []
  {
    var after := Step(all, st, b);
    if b.blockType == Table {
      assert Emitted(after)[..|Emitted(after)| - 1] == Emitted(st);
    } else if b.blockType == Cell && st.open.Some? {
      assert Emitted(after)[..|Emitted(after)| - 1] == st.closed;
      assert Emitted(st)[..|Emitted(st)| - 1] == st.closed;
    }
  }

  lemma PrefixCellIndicesValid(bs: seq<Block>, n: nat)
    requires CellIndicesValid(bs) && n <= |bs|
    ensures CellIndicesValid(bs[..n])
  {
    forall i, j | 0 <= j < i < n && bs[..n][j].blockType == Table && bs[..n][i].blockType == Cell
      ensures bs[..n][i].rowIndex >= 1 && bs[..n][i].columnIndex >= 1
    {
      assert bs[..n][i] == bs[i] && bs[..n][j] == bs[j];
    }
  }

  /** A block list without TABLE blocks leaves the pass where it started: its cells are dropped. */
  lemma {:induction false} NoTableLeavesStart(all: seq<Block>, bs: seq<Block>)
    requires !HasTable(bs)
    ensures CellIndicesValid(bs)
    ensures ScanBlocks(all, bs) == Start
  {
    if bs != [] {
      var init := bs[..|bs| - 1];
      assert !HasTable(init);
      NoTableLeavesStart(all, init);
    }
  }

  /**
   * CELL blocks before the first TABLE block are ignored: prepending a block list without TABLE
   * blocks changes nothing.
   */
  lemma {:induction false} CellsBeforeFirstTableIgnored(all: seq<Block>, p: seq<Block>, q: seq<Block>)
    requires !HasTable(p) && CellIndicesValid(q)
    ensures CellIndicesValid(p + q)
    ensures ScanBlocks(all, p + q) == ScanBlocks(all, q)
  {
    assert CellIndicesValid(p + q) by {
      forall i, j | 0 <= j < i < |p + q| && (p + q)[j].blockType == Table && (p + q)[i].blockType == Cell
        ensures (p + q)[i].rowIndex >= 1 && (p + q)[i].columnIndex >= 1
      {
        assert q[j - |p|] == (p + q)[j] && q[i - |p|] == (p + q)[i];
      }
    }
    if q == [] {
      assert p + q == p;
      NoTableLeavesStart(all, p);
    } else {
      var q' := q[..|q| - 1];
      assert CellIndicesValid(q');
      CellsBeforeFirstTableIgnored(all, p, q');
      assert (p + q)[..|p + q| - 1] == p + q';
      assert (p + q)[|p + q| - 1] == q[|q| - 1];
    }
  }

  /** A grid, once emitted, is never changed by the blocks that follow. */
  lemma {:induction false} EmittedTablesAreFinal(all: seq<Block>, bs: seq<Block>, more: seq<Block>)
    requires CellIndicesValid(bs + more)
    ensures CellIndicesValid(bs)
    ensures ScanBlocks(all, bs).closed <= ScanBlocks(all, bs + more).closed
  {
    assert CellIndicesValid(bs) by {
      forall i, j | 0 <= j < i < |bs| && bs[j].blockType == Table && bs[i].blockType == Cell
        ensures bs[i].rowIndex >= 1 && bs[i].columnIndex >= 1
      {
        assert (bs + more)[i] == bs[i] && (bs + more)[j] == bs[j];
      }
    }
    if more == [] {
      assert bs + more == bs;
    } else {
      var more' := more[..|more| - 1];
      assert (bs + more)[..|bs + more| - 1] == bs + more';
      EmittedTablesAreFinal(all, bs, more');
    }
  }
}
