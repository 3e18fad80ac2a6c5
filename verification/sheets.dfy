/** The sheet adapter: reads the worksheet's data rows as structured fruit rows, and
    upserts one row by id (overwrite columns B:C of the first row with that id, or append
    a new row). The remote worksheet is replaced by an in-memory grid of raw rows. */
module Sheets {
  import opened Wrappers

  /** One raw row as the spreadsheet service reports it: the cells from column A
      rightwards; a cell past the end of the row is blank. */
  type RawRow = seq<string>

  /** A structured row, zipped positionally from columns A, B and C. */
  datatype FruitRow = FruitRow(id: string, fruit: string, updatedAt: string)

  /** Row 1 of the sheet is the header; data rows start at sheet row 2. */
  const FirstDataRow: nat := 2

  /** The value `row[i] || ''` reads: the cell when it exists, the empty string when it
      is missing (an empty cell already reads as the empty string). */
  function CellOr(row: RawRow, i: nat): (c: string)
    ensures i < |row| ==> c == row[i]
    ensures |row| <= i ==> c == ""
  {
    if i < |row| && row[i] != "" then row[i] else ""
  }

  /** One raw row as a fruit row: id from column A, fruit from B, updatedAt from C,
      each the empty string when the row is too short to have that cell. */
  function ToFruitRow(row: RawRow): (r: FruitRow)
    ensures 3 <= |row| ==> r == FruitRow(row[0], row[1], row[2])
    ensures |row| < 3 ==> r.updatedAt == ""
  {
    FruitRow(CellOr(row, 0), CellOr(row, 1), CellOr(row, 2))
  }

  /** Each field of a fruit row is the raw cell at column 0, 1 or 2 when the row has
      it, and the empty string when it does not. */
  lemma ToFruitRowCells(row: RawRow)
    ensures ToFruitRow(row).id == if 0 < |row| then row[0] else ""
    ensures ToFruitRow(row).fruit == if 1 < |row| then row[1] else ""
    ensures ToFruitRow(row).updatedAt == if 2 < |row| then row[2] else ""
  {
  }

  /** The `map` over the raw rows: one fruit row per raw row, in the same order. */
  function ToFruitRows(raw: seq<RawRow>): (rows: seq<FruitRow>)
    ensures |rows| == |raw|
    ensures forall i :: 0 <= i < |raw| ==> rows[i] == ToFruitRow(raw[i])
  {
    if raw == [] then [] else [ToFruitRow(raw[0])] + ToFruitRows(raw[1..])
  }

  /** A row with its trailing empty cells dropped, as the service reports rows. */
  function TrimBlankEnd(cells: RawRow): (r: RawRow)
    ensures |r| <= |cells| && r == cells[..|r|]
    ensures r == [] || r[|r| - 1] != ""
    ensures forall i :: |r| <= i < |cells| ==> cells[i] == ""
  {
    if cells == [] || cells[|cells| - 1] != "" then cells
    else TrimBlankEnd(cells[..|cells| - 1])
  }

  /** The cells of one row that a read of columns A to C returns: at most the first
      three, without trailing empty cells. The cut loses nothing a fruit row is built
      from. */
  function ColumnsAToC(row: RawRow): (r: RawRow)
    ensures |r| <= 3 && |r| <= |row| && r == row[..|r|]
    ensures r == [] || r[|r| - 1] != ""
    ensures forall i :: |r| <= i < |row| && i < 3 ==> row[i] == ""
    ensures ToFruitRow(r) == ToFruitRow(row)
  {
    TrimBlankEnd(if |row| <= 3 then row else row[..3])
  }

  /** The values of range A2:C: the A to C cells of every row below the header, or no
      values at all when there is no row below the header (the service then omits the
      field). */
  function RangeA2C(grid: seq<RawRow>): (values: Option<seq<RawRow>>)
    ensures values.None? <==> |grid| <= 1
    ensures values.Some? ==>
      |values.value| == |grid| - 1 &&
      forall i :: 0 <= i < |values.value| ==> values.value[i] == ColumnsAToC(grid[i + 1])
  {
    if |grid| <= 1 then None else Some(ColumnsAToCOfEach(grid[1..]))
  }

  /** `ColumnsAToC` of every row, in order. */
  function ColumnsAToCOfEach(rows: seq<RawRow>): (cut: seq<RawRow>)
    ensures |cut| == |rows|
    ensures forall i :: 0 <= i < |rows| ==> cut[i] == ColumnsAToC(rows[i])
  {
    if rows == [] then [] else [ColumnsAToC(rows[0])] + ColumnsAToCOfEach(rows[1..])
  }

  /** `(response.data.values || []).map(...)`: absent values read as no rows. */
  function RowsOf(values: Option<seq<RawRow>>): (rows: seq<FruitRow>)
    ensures values.None? ==> rows == []
    ensures values.Some? ==>
      |rows| == |values.value| &&
      forall i :: 0 <= i < |rows| ==> rows[i] == ToFruitRow(values.value[i])
  {
    match values
    case None => []
    case Some(raw) => ToFruitRows(raw)
  }

  /** What a read of the whole worksheet returns: one row per sheet row below the
      header, top to bottom, never the header itself; a header-only sheet reads as []. */
  function ReadRows(grid: seq<RawRow>): (rows: seq<FruitRow>)
    ensures |rows| == if |grid| <= 1 then 0 else |grid| - 1
    ensures forall i :: 0 <= i < |rows| ==> rows[i] == ToFruitRow(grid[i + 1])
  {
    if |grid| <= 1 then [] else ToFruitRows(grid[1..])
  }

  /** Reading through range A2:C, which cuts every row to its A to C cells without
      trailing empty cells, gives exactly the rows of `ReadRows`. */
  lemma {:induction false} ReadThroughRangeA2C(grid: seq<RawRow>)
    ensures RowsOf(RangeA2C(grid)) == ReadRows(grid)
  {
    var viaRange := RowsOf(RangeA2C(grid));
    var rows := ReadRows(grid);
    forall i | 0 <= i < |rows|
      ensures viaRange[i] == rows[i]
    {
      assert viaRange[i] == ToFruitRow(ColumnsAToC(grid[i + 1]));
    }
  }

  /** `findIndex(row => row.id === id)`: the index of the first row with that id,
      or -1 when no row has it. */
  function FindIndex(rows: seq<FruitRow>, id: string): (k: int)
    ensures -1 <= k < |rows|
    ensures k == -1 <==> forall j :: 0 <= j < |rows| ==> rows[j].id != id
    ensures 0 <= k ==> rows[k].id == id && forall j :: 0 <= j < k ==> rows[j].id != id
  {
    if rows == [] then -1
    else if rows[0].id == id then 0
    else
      var k := FindIndex(rows[1..], id);
      if k == -1 then -1 else k + 1
  }

  /** A raw row after writing `[[fruit, updatedAt]]` to its columns B and C: column A and
      any cell right of C keep their contents (a missing A cell stays blank). */
  function WriteBC(row: RawRow, fruit: string, updatedAt: string): (r: RawRow)
    ensures |r| >= 3 && r[1] == fruit && r[2] == updatedAt
    ensures CellOr(r, 0) == CellOr(row, 0)
    ensures forall i :: 3 <= i < |row| ==> i < |r| && r[i] == row[i]
  {
    [CellOr(row, 0), fruit, updatedAt] + (if |row| > 3 then row[3..] else [])
  }

  /** The grid after an upsert of `id`: the first data row with that id gets the new
      fruit and timestamp in B:C (sheet row index + 2), otherwise `[id, fruit, updatedAt]`
      is added after the last row. */
  function Upserted(grid: seq<RawRow>, id: string, fruit: string, updatedAt: string): (r: seq<RawRow>)
    ensures 1 <= |grid| ==> 1 <= |r| && r[0] == grid[0]
    ensures |r| == |grid| || |r| == |grid| + 1
  {
    var k := FindIndex(ReadRows(grid), id);
    if k != -1 then grid[k + 1 := WriteBC(grid[k + 1], fruit, updatedAt)]
    else grid + [[id, fruit, updatedAt]]
  }

  /** Ids are unique among the persisted rows. */
  ghost predicate UniqueIds(rows: seq<FruitRow>)
  {
    forall i, j :: 0 <= i < j < |rows| ==> rows[i].id != rows[j].id
  }

  /** An id that is already present: only the first row with it is touched, and only
      in columns B and C; its id cell, every other row and the row count are unchanged. */
  lemma UpsertExisting(grid: seq<RawRow>, id: string, fruit: string, updatedAt: string, k: nat)
    requires k < |ReadRows(grid)| && ReadRows(grid)[k].id == id
    requires forall j :: 0 <= j < k ==> ReadRows(grid)[j].id != id
    ensures var r := Upserted(grid, id, fruit, updatedAt);
      && |r| == |grid|
      && CellOr(r[k + 1], 0) == CellOr(grid[k + 1], 0)
      && r[k + 1][1] == fruit && r[k + 1][2] == updatedAt
      && (forall j :: 0 <= j < |grid| && j != k + 1 ==> r[j] == grid[j])
      && ReadRows(r)[k] == FruitRow(id, fruit, updatedAt)
  {
    var rows := ReadRows(grid);
    var f := FindIndex(rows, id);
    assert f == k;
    var r := Upserted(grid, id, fruit, updatedAt);
    assert ReadRows(r)[k] == ToFruitRow(r[k + 1]);
  }

  /** An id that is absent: exactly one row `[id, fruit, updatedAt]` is added after all
      existing rows, which stay as they were. */
  lemma UpsertAbsent(grid: seq<RawRow>, id: string, fruit: string, updatedAt: string)
    requires forall j :: 0 <= j < |ReadRows(grid)| ==> ReadRows(grid)[j].id != id
    ensures Upserted(grid, id, fruit, updatedAt) == grid + [[id, fruit, updatedAt]]
  {
  }

  /** Reads after overwriting the first row with the id: that row reads with the new
      fruit and timestamp, every other row reads as before, and it is still the first
      row with the id. */
  lemma ReadAfterOverwrite(grid: seq<RawRow>, id: string, fruit: string, updatedAt: string, k: nat)
    requires k < |ReadRows(grid)| && ReadRows(grid)[k].id == id
    requires forall j :: 0 <= j < k ==> ReadRows(grid)[j].id != id
    ensures var before := ReadRows(grid);
      var after := ReadRows(Upserted(grid, id, fruit, updatedAt));
      && |after| == |before|
      && after[k] == FruitRow(id, fruit, updatedAt)
      && (forall j :: 0 <= j < |after| && j != k ==> after[j] == before[j])
      && FindIndex(after, id) == k
  {
    var before := ReadRows(grid);
    var r := Upserted(grid, id, fruit, updatedAt);
    var after := ReadRows(r);
    UpsertExisting(grid, id, fruit, updatedAt, k);
    forall j | 0 <= j < |after| && j != k
      ensures after[j] == before[j]
    {
      assert after[j] == ToFruitRow(r[j + 1]);
    }
  }

  /** Reads after appending: the old rows, then the new row. */
  lemma ReadAfterAppend(grid: seq<RawRow>, id: string, fruit: string, updatedAt: string)
    requires 1 <= |grid|
    requires forall j :: 0 <= j < |ReadRows(grid)| ==> ReadRows(grid)[j].id != id
    ensures ReadRows(Upserted(grid, id, fruit, updatedAt)) == ReadRows(grid) + [FruitRow(id, fruit, updatedAt)]
  {
    var before := ReadRows(grid);
    var r := Upserted(grid, id, fruit, updatedAt);
    var after := ReadRows(r);
    UpsertAbsent(grid, id, fruit, updatedAt);
    assert after[|before|] == ToFruitRow(r[|before| + 1]);
    forall j | 0 <= j < |before|
      ensures after[j] == before[j]
    {
      assert r[j + 1] == grid[j + 1];
    }
  }

  /** Round trip: after an upsert, a read finds (first) a row with that id, carrying the
      new fruit and the one timestamp of the call, and every other row reads as before. */
  lemma ReadAfterUpsert(grid: seq<RawRow>, id: string, fruit: string, updatedAt: string)
    requires 1 <= |grid|
    ensures var before := ReadRows(grid);
      var after := ReadRows(Upserted(grid, id, fruit, updatedAt));
      var k := FindIndex(after, id);
      && 0 <= k
      && after[k] == FruitRow(id, fruit, updatedAt)
      && (|after| == |before| || (|after| == |before| + 1 && k == |before|))
      && forall j :: 0 <= j < |after| && j != k ==> j < |before| && after[j] == before[j]
  {
    var before := ReadRows(grid);
    var f := FindIndex(before, id);
    if f != -1 {
      ReadAfterOverwrite(grid, id, fruit, updatedAt, f);
    } else {
      ReadAfterAppend(grid, id, fruit, updatedAt);
      var after := before + [FruitRow(id, fruit, updatedAt)];
      assert FindIndex(after, id) == |before| by {
        assert after[|before|].id == id;
        assert forall j :: 0 <= j < |before| ==> after[j].id != id;
      }
    }
  }

  /** Two upserts in a row with the same id add at most one row: the second one finds
      the row the first one wrote or overwrote. */
  lemma UpsertTwiceAddsAtMostOneRow(grid: seq<RawRow>, id: string, fruit1: string, updatedAt1: string,
                                    fruit2: string, updatedAt2: string)
    requires 1 <= |grid|
    ensures var once := Upserted(grid, id, fruit1, updatedAt1);
      |Upserted(once, id, fruit2, updatedAt2)| == |once| <= |grid| + 1
  {
    var once := Upserted(grid, id, fruit1, updatedAt1);
    ReadAfterUpsert(grid, id, fruit1, updatedAt1);
    var k := FindIndex(ReadRows(once), id);
    UpsertExisting(once, id, fruit2, updatedAt2, k);
  }

  /** Lookup-before-write keeps ids unique among the data rows. */
  lemma UpsertKeepsIdsUnique(grid: seq<RawRow>, id: string, fruit: string, updatedAt: string)
    requires UniqueIds(ReadRows(grid))
    ensures UniqueIds(ReadRows(Upserted(grid, id, fruit, updatedAt)))
  {
    var after := ReadRows(Upserted(grid, id, fruit, updatedAt));
    if |grid| == 0 {
      assert |Upserted(grid, id, fruit, updatedAt)| == 1;
    } else {
      var before := ReadRows(grid);
      ReadAfterUpsert(grid, id, fruit, updatedAt);
      var k := FindIndex(after, id);
      forall i, j | 0 <= i < j < |after|
        ensures after[i].id != after[j].id
      {
        if i == k {
          assert after[j] == before[j];
        } else if j == k {
          assert after[i] == before[i];
          assert after[i].id != id;
        }
      }
    }
  }

  /** On a sheet without its header row, the first upsert lands in sheet row 1, which a
      read of A2:C never returns; so a second upsert of the same id appends again. */
  lemma UpsertWithoutHeader(id: string, fruit: string, updatedAt: string)
    ensures var once := Upserted([], id, fruit, updatedAt);
      ReadRows(once) == [] && |Upserted(once, id, fruit, updatedAt)| == 2
  {
  }

  /** In-memory stand-in for the worksheet `Sheet1`: `grid[0]` is the header row
      (sheet row 1) and `grid[n - 1]` is sheet row n. */
  class Worksheet {
    var grid: seq<RawRow>

    /** The header row exists. */
    ghost predicate Valid()
      reads this
    {
      1 <= |grid|
    }

    constructor (header: RawRow, data: seq<RawRow>)
      ensures Valid() && grid == [header] + data
    {
      grid := [header] + data;
    }

    /** `values.get` on range A2:C. */
    method GetA2C() returns (values: Option<seq<RawRow>>)
      ensures values == RangeA2C(grid)
    {
      var g := grid;
      if |g| <= 1 {
        values := None;
      } else {
        values := Some(ColumnsAToCOfEach(g[1..]));
      }
    }

    /** `values.update` on range B{rowNumber}:C{rowNumber} with `[[fruit, updatedAt]]`. */
    method UpdateBC(rowNumber: nat, fruit: string, updatedAt: string)
      requires 1 <= rowNumber <= |grid|
      modifies this
      ensures grid == old(grid)[rowNumber - 1 := WriteBC(old(grid)[rowNumber - 1], fruit, updatedAt)]
      ensures |grid| == |old(grid)|
      ensures grid[rowNumber - 1] == WriteBC(old(grid)[rowNumber - 1], fruit, updatedAt)
      ensures forall n :: 0 <= n < |grid| && n != rowNumber - 1 ==> grid[n] == old(grid)[n]
    {
      grid := grid[rowNumber - 1 := WriteBC(grid[rowNumber - 1], fruit, updatedAt)];
    }

    /** `values.append` on range A:C with `[row]`: the row goes after the last row. */
    method Append(row: RawRow)
      modifies this
      ensures grid == old(grid) + [row]
    {
      grid := grid + [row];
    }
  }

  /** `getSheetData`: reads range A2:C and zips every raw row into a fruit row. */
  method GetSheetData(sheet: Worksheet) returns (rows: seq<FruitRow>)
    ensures rows == ReadRows(sheet.grid)
  {
    var values := sheet.GetA2C();
    rows := RowsOf(values);
    ReadThroughRangeA2C(sheet.grid);
  }

  /** `updateSheetData`: re-reads the sheet, then overwrites B:C of the first row with
      `id` at sheet row index + 2, or appends `[id, fruit, updatedAt]`. The same
      `updatedAt` is written in both branches; the header row is never written. */
  method UpdateSheetData(sheet: Worksheet, id: string, fruit: string, updatedAt: string)
    requires sheet.Valid()
    modifies sheet
    ensures sheet.Valid()
    ensures sheet.grid == Upserted(old(sheet.grid), id, fruit, updatedAt)
    ensures sheet.grid[0] == old(sheet.grid)[0]
  {
    ghost var before := sheet.grid;
    var data := GetSheetData(sheet);
    var existingRowIndex := FindIndex(data, id);
    assert existingRowIndex == FindIndex(ReadRows(before), id);
    if existingRowIndex != -1 {
      var rowNumber := existingRowIndex + FirstDataRow;
      sheet.UpdateBC(rowNumber, fruit, updatedAt);
      assert sheet.grid == before[rowNumber - 1 := WriteBC(before[rowNumber - 1], fruit, updatedAt)];
      assert sheet.grid == Upserted(before, id, fruit, updatedAt);
    } else {
      sheet.Append([id, fruit, updatedAt]);
      assert sheet.grid == before + [[id, fruit, updatedAt]];
      assert sheet.grid == Upserted(before, id, fruit, updatedAt);
    }
  }
}
