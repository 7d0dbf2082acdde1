/** `SheetUtils`: the spreadsheet side of the converter. A sheet is a list of
    rows, a row a list of optional cell texts (a cell's content read as a
    string), and a row that is absent from the sheet is `None`. */
module SheetUtils {
  import opened Wrappers
  import opened Errors
  import JavaStrings

  /** `ExcelReader.ROW_SERVER`: the column-0 marker of the field row, after
      which data rows start. */
  const ROW_SERVER: string := "SERVER"
  /** `ExcelReader.ROW_CLIENT`: declared, and used by no reader. */
  const ROW_CLIENT: string := "CLIENT"
  /** `ExcelReader.ROW_END`: the column-0 marker of the last data row. */
  const ROW_END: string := "END"

  type Row = seq<Option<string>>

  datatype Sheet = Sheet(name: string, rows: seq<Option<Row>>)

  /** `SheetInfo`: the sheets that share one name cell, and the file. */
  datatype SheetInfo = SheetInfo(file: Option<string>, sheets: seq<Sheet>)

  /** `row.getCell(i)`. */
  function Cell(row: Row, i: int): Option<string>
  {
    if 0 <= i < |row| then row[i] else None
  }

  /** Whether the row's column-0 text is `text`. */
  predicate IsMarker(row: Row, text: string)
  {
    Cell(row, 0) == Some(text)
  }

  /** `sheet.getLastRowNum()`: the index of the last present row, 0 for a
      sheet without rows. */
  function LastRowNum(rows: seq<Option<Row>>): (r: nat)
    ensures r == 0 || (r < |rows| && rows[r].Some?)
    ensures forall j :: r < j < |rows| ==> rows[j].None?
  {
    if |rows| == 0 then 0
    else if rows[|rows| - 1].Some? then |rows| - 1
    else LastRowNum(rows[..|rows| - 1])
  }

  /** `row.getLastCellNum()`: one past the last present cell, -1 for a row
      without cells. */
  function LastCellNum(row: Row): (r: int)
    ensures r == -1 || (0 < r <= |row| && row[r - 1].Some?)
    ensures r == -1 ==> forall j :: 0 <= j < |row| ==> row[j].None?
    ensures r > 0 ==> forall j :: r <= j < |row| ==> row[j].None?
  {
    if |row| == 0 then -1
    else if row[|row| - 1].Some? then |row|
    else LastCellNum(row[..|row| - 1])
  }

  /** The rows `for (Row row : sheet)` visits: the present ones, in order. */
  function Present(rows: seq<Option<Row>>): (r: seq<Row>)
    ensures forall row :: row in r <==> Some(row) in rows
  {
    if |rows| == 0 then []
    else
      assert forall x :: x in rows <==> x in rows[..|rows| - 1] || x == rows[|rows| - 1];
      Present(rows[..|rows| - 1]) + (if rows[|rows| - 1].Some? then [rows[|rows| - 1].value] else [])
  }

  // ---------------------------------------------------------------------
  // getFieldRow

  /** The position of the first row marked `SERVER`, or -1. */
  function FieldRowIndex(rows: seq<Row>): (k: int)
    ensures -1 <= k < |rows|
    ensures k >= 0 ==> IsMarker(rows[k], ROW_SERVER)
    ensures forall j :: 0 <= j < |rows| && (k == -1 || j < k) ==> !IsMarker(rows[j], ROW_SERVER)
  {
    if |rows| == 0 then -1
    else if IsMarker(rows[0], ROW_SERVER) then 0
    else
      var k := FieldRowIndex(rows[1..]);
      if k == -1 then -1 else k + 1
  }

  /** `getFieldRow`: the first row whose column-0 text is `SERVER`. */
  method GetFieldRow(sheet: Sheet) returns (r: Option<Row>)
    ensures var k := FieldRowIndex(Present(sheet.rows));
      r == if k == -1 then None else Some(Present(sheet.rows)[k])
  {
    var rows := Present(sheet.rows);
    var i := 0;
    while i < |rows|
      invariant 0 <= i <= |rows|
      invariant forall j :: 0 <= j < i ==> !IsMarker(rows[j], ROW_SERVER)
    {
      var cell := Cell(rows[i], 0);
      if cell.Some? && cell.value == ROW_SERVER {
        FieldRowIndexIs(rows, i);
        return Some(rows[i]);
      }
      i := i + 1;
    }
    FieldRowIndexIs(rows, -1);
    r := None;
  }

  /** The first marked row is the one `FieldRowIndex` names. */
  lemma {:induction false} FieldRowIndexIs(rows: seq<Row>, k: int)
    requires -1 <= k < |rows|
    requires k >= 0 ==> IsMarker(rows[k], ROW_SERVER)
    requires forall j :: 0 <= j < |rows| && (k == -1 || j < k) ==> !IsMarker(rows[j], ROW_SERVER)
    ensures FieldRowIndex(rows) == k
  {
  }

  // ---------------------------------------------------------------------
  // getColumnInfo

  /** `ColumnInfo`: a header text and its column. */
  datatype ColumnInfo = ColumnInfo(name: string, column: nat)

  /** The columns among 1 .. `n - 1` whose header cell is present and not
      blank, in ascending order. */
  function Columns(fieldRow: Row, n: int): seq<ColumnInfo>
    decreases if n < 0 then 0 else n
  {
    if n <= 1 then []
    else
      var front := Columns(fieldRow, n - 1);
      var cell := Cell(fieldRow, n - 1);
      if cell.Some? && !JavaStrings.IsBlank(cell.value) then front + [ColumnInfo(cell.value, n - 1)]
      else front
  }

  /** The columns are exactly the non-blank header cells below `n`, each
      with its text, in ascending column order. */
  lemma {:induction false} ColumnsSpec(fieldRow: Row, n: int)
    ensures var r := Columns(fieldRow, n);
      && (forall k :: 0 <= k < |r| ==> 1 <= r[k].column < n)
      && (forall k :: 0 <= k < |r| ==>
            Cell(fieldRow, r[k].column) == Some(r[k].name) && !JavaStrings.IsBlank(r[k].name))
      && (forall k, l :: 0 <= k < l < |r| ==> r[k].column < r[l].column)
      && (forall i :: 1 <= i < n && Cell(fieldRow, i).Some? && !JavaStrings.IsBlank(Cell(fieldRow, i).value) ==>
            ColumnInfo(Cell(fieldRow, i).value, i) in r)
    decreases if n < 0 then 0 else n
  {
    if n > 1 {
      ColumnsSpec(fieldRow, n - 1);
      var front := Columns(fieldRow, n - 1);
      var cell := Cell(fieldRow, n - 1);
      if cell.Some? && !JavaStrings.IsBlank(cell.value) {
        var r := front + [ColumnInfo(cell.value, n - 1)];
        assert forall k :: 0 <= k < |front| ==> r[k] == front[k];
        assert r[|front|] == ColumnInfo(cell.value, n - 1);
      }
    }
  }

  /** The loop of `getColumnInfo` over the field row's cells. */
  method ColumnsOf(fieldRow: Row) returns (result: seq<ColumnInfo>)
    ensures result == Columns(fieldRow, LastCellNum(fieldRow))
  {
    result := [];
    var n := LastCellNum(fieldRow);
    var i := 1;
    while i < n
      invariant 1 <= i && (i <= n || i == 1)
      invariant result == Columns(fieldRow, i)
    {
      var cell := Cell(fieldRow, i);
      if cell.Some? && !JavaStrings.IsBlank(cell.value) {
        result := result + [ColumnInfo(cell.value, i)];
      }
      i := i + 1;
    }
    assert n <= 1 ==> Columns(fieldRow, n) == [] == Columns(fieldRow, i);
  }

  /** `getColumnInfo`: refused when there is no field row. */
  method GetColumnInfo(sheet: Sheet) returns (r: Result<seq<ColumnInfo>, Error>)
    ensures var k := FieldRowIndex(Present(sheet.rows));
      r == if k == -1 then Err(FieldRowMissing(sheet.name))
           else Ok(Columns(Present(sheet.rows)[k], LastCellNum(Present(sheet.rows)[k])))
  {
    var fieldRow := GetFieldRow(sheet);
    if fieldRow.None? {
      return Err(FieldRowMissing(sheet.name));
    }
    var columns := ColumnsOf(fieldRow.value);
    r := Ok(columns);
  }

  // ---------------------------------------------------------------------
  // listSheets

  /** The name a sheet is grouped under, or `None` when `listSheets` skips
      it: no row after row 0, no row 0, a row 0 without cells, no cell
      (0,0), no `SERVER` row, or a blank name. */
  function SheetKey(s: Sheet): Option<string>
  {
    if LastRowNum(s.rows) <= 0 then None
    else if s.rows[0].None? then None
    else if LastCellNum(s.rows[0].value) <= 0 then None
    else if Cell(s.rows[0].value, 0).None? then None
    else if FieldRowIndex(Present(s.rows)) == -1 then None
    else if JavaStrings.IsBlank(Cell(s.rows[0].value, 0).value) then None
    else Cell(s.rows[0].value, 0)
  }

  /** A kept sheet has rows past row 0, a `SERVER` row and a non-blank name
      cell, and that cell is its name. */
  lemma {:induction false} SheetKeySpec(s: Sheet)
    ensures SheetKey(s).Some? ==>
      && LastRowNum(s.rows) > 0
      && s.rows[0].Some?
      && Cell(s.rows[0].value, 0) == SheetKey(s)
      && !JavaStrings.IsBlank(SheetKey(s).value)
      && FieldRowIndex(Present(s.rows)) >= 0
    ensures LastRowNum(s.rows) <= 0 ==> SheetKey(s).None?
    ensures FieldRowIndex(Present(s.rows)) == -1 ==> SheetKey(s).None?
  {
  }

  /** The sheets of `wb` grouped under `key`, in workbook order. */
  function Keyed(wb: seq<Sheet>, key: string): seq<Sheet>
  {
    if |wb| == 0 then []
    else Keyed(wb[..|wb| - 1], key) + (if SheetKey(wb[|wb| - 1]) == Some(key) then [wb[|wb| - 1]] else [])
  }

  /** The map `listSheets` builds. */
  function ListSheets(wb: seq<Sheet>, file: Option<string>): map<string, SheetInfo>
  {
    if |wb| == 0 then map[]
    else
      var m := ListSheets(wb[..|wb| - 1], file);
      var s := wb[|wb| - 1];
      match SheetKey(s)
      case None => m
      case Some(k) => m[k := SheetInfo(file, (if k in m then m[k].sheets else []) + [s])]
  }

  /** `listSheets` groups exactly the kept sheets by name, in workbook
      order, and gives every group at least one sheet. */
  lemma {:induction false} ListSheetsSpec(wb: seq<Sheet>, file: Option<string>)
    ensures forall k :: k in ListSheets(wb, file) <==> |Keyed(wb, k)| > 0
    ensures forall k :: k in ListSheets(wb, file) ==>
      ListSheets(wb, file)[k] == SheetInfo(file, Keyed(wb, k))
  {
    if |wb| > 0 {
      ListSheetsSpec(wb[..|wb| - 1], file);
    }
  }

  /** A sheet is in the group of its name, and in no other. */
  lemma {:induction false} KeyedMembers(wb: seq<Sheet>, key: string)
    ensures forall s :: s in Keyed(wb, key) <==> s in wb && SheetKey(s) == Some(key)
  {
    if |wb| > 0 {
      KeyedMembers(wb[..|wb| - 1], key);
      assert forall s :: s in wb <==> s in wb[..|wb| - 1] || s == wb[|wb| - 1];
    }
  }

  /** `listSheets`: one pass over the workbook. */
  method ListSheetsOf(wb: seq<Sheet>, file: Option<string>) returns (result: map<string, SheetInfo>)
    ensures result == ListSheets(wb, file)
  {
    result := map[];
    var i := 0;
    while i < |wb|
      invariant 0 <= i <= |wb|
      invariant result == ListSheets(wb[..i], file)
    {
      assert wb[..i + 1][..i] == wb[..i];
      var sheet := wb[i];
      var key := SheetKey(sheet);
      if key.Some? {
        var info := if key.value in result then result[key.value] else SheetInfo(file, []);
        result := result[key.value := SheetInfo(file, info.sheets + [sheet])];
      }
      i := i + 1;
    }
    assert wb[..i] == wb;
  }

  // ---------------------------------------------------------------------
  // The data rows of a sheet

  /** The rows after the first `SERVER` row. */
  function AfterHeader(rows: seq<Row>): seq<Row>
  {
    if |rows| == 0 then []
    else if IsMarker(rows[0], ROW_SERVER) then rows[1..]
    else AfterHeader(rows[1..])
  }

  /** The rows up to and including the first `END` row. */
  function UpToEnd(rows: seq<Row>): seq<Row>
  {
    if |rows| == 0 then []
    else if IsMarker(rows[0], ROW_END) then [rows[0]]
    else [rows[0]] + UpToEnd(rows[1..])
  }

  /** The rows that become data: those after the first `SERVER` row, up to
      and including the first `END` row after it. */
  function DataRows(rows: seq<Row>): seq<Row>
  {
    UpToEnd(AfterHeader(rows))
  }

  /** The rows after the header are exactly those after the first `SERVER`
      row; none at all when there is no such row. */
  lemma {:induction false} AfterHeaderSpec(rows: seq<Row>)
    ensures var k := FieldRowIndex(rows);
      AfterHeader(rows) == if k == -1 then [] else rows[k + 1..]
  {
    if |rows| > 0 && !IsMarker(rows[0], ROW_SERVER) {
      AfterHeaderSpec(rows[1..]);
      var k := FieldRowIndex(rows[1..]);
      if k != -1 {
        assert rows[1..][k + 1..] == rows[k + 2..];
      }
    }
  }

  /** The data rows are a leading part of the rows after the header: all of
      them when no `END` row follows, otherwise up to the first `END` row,
      which is the last one taken. */
  lemma {:induction false} UpToEndSpec(rows: seq<Row>)
    ensures UpToEnd(rows) <= rows
    ensures forall j :: 0 <= j < |UpToEnd(rows)| - 1 ==> !IsMarker(UpToEnd(rows)[j], ROW_END)
    ensures (forall j :: 0 <= j < |rows| ==> !IsMarker(rows[j], ROW_END)) ==> UpToEnd(rows) == rows
    ensures (exists j :: 0 <= j < |rows| && IsMarker(rows[j], ROW_END)) ==>
      |UpToEnd(rows)| > 0 && IsMarker(UpToEnd(rows)[|UpToEnd(rows)| - 1], ROW_END)
  {
    if |rows| > 0 && !IsMarker(rows[0], ROW_END) {
      UpToEndSpec(rows[1..]);
      assert rows == [rows[0]] + rows[1..];
      if exists j :: 0 <= j < |rows| && IsMarker(rows[j], ROW_END) {
        var j :| 0 <= j < |rows| && IsMarker(rows[j], ROW_END);
        assert IsMarker(rows[1..][j - 1], ROW_END);
      }
    }
  }

  /** The phases of the row loops: before the header, reading data, and
      stopped by an `END` row. */
  datatype Phase = Header | Data | Ended

  /** Where a row loop stands after some rows: in the header phase, the rows
      still to come determine the data rows by themselves; in the data
      phase, the rows taken so far followed by the data rows still to come
      are all the data rows; once ended, all were taken. */
  ghost predicate ScanInvariant(rows: seq<Row>, i: nat, phase: Phase, taken: seq<Row>)
    requires i <= |rows|
  {
    match phase
    case Header => taken == [] && AfterHeader(rows[i..]) == AfterHeader(rows)
    case Data => taken + UpToEnd(rows[i..]) == DataRows(rows)
    case Ended => taken == DataRows(rows)
  }

  /** One step of a row loop keeps `ScanInvariant`. */
  lemma {:induction false} ScanStep(rows: seq<Row>, i: nat, phase: Phase, taken: seq<Row>)
    requires i < |rows| && phase != Ended && ScanInvariant(rows, i, phase, taken)
    ensures phase == Header && IsMarker(rows[i], ROW_SERVER) ==> ScanInvariant(rows, i + 1, Data, taken)
    ensures phase == Header && !IsMarker(rows[i], ROW_SERVER) ==> ScanInvariant(rows, i + 1, Header, taken)
    ensures phase == Data && IsMarker(rows[i], ROW_END) ==> ScanInvariant(rows, i + 1, Ended, taken + [rows[i]])
    ensures phase == Data && !IsMarker(rows[i], ROW_END) ==> ScanInvariant(rows, i + 1, Data, taken + [rows[i]])
  {
    assert rows[i..][1..] == rows[i + 1..];
  }

  /** Leaving a row loop at the end of the rows took all the data rows. */
  lemma {:induction false} ScanDone(rows: seq<Row>, phase: Phase, taken: seq<Row>)
    requires ScanInvariant(rows, |rows|, phase, taken)
    ensures taken == DataRows(rows)
  {
  }

  // ---------------------------------------------------------------------
  // readSheetData

  /** The map one data row becomes: each column's non-empty cell under the
      column's name, a later column overwriting an earlier one of the same
      name. */
  function RowMap(columns: seq<ColumnInfo>, row: Row): (m: map<string, string>)
    ensures forall name :: name in m <==>
      exists k :: 0 <= k < |columns| && columns[k].name == name && Cell(row, columns[k].column).Some? &&
                  !JavaStrings.IsEmpty(Cell(row, columns[k].column).value)
    ensures forall name :: name in m ==> !JavaStrings.IsEmpty(m[name])
  {
    if |columns| == 0 then map[]
    else
      var front := columns[..|columns| - 1];
      var m := RowMap(front, row);
      var info := columns[|columns| - 1];
      var cell := Cell(row, info.column);
      assert forall k :: 0 <= k < |front| ==> columns[k] == front[k];
      if cell.Some? && !JavaStrings.IsEmpty(cell.value) then m[info.name := cell.value] else m
  }

  /** With distinct column names, each entry is that column's cell. */
  lemma {:induction false} RowMapCell(columns: seq<ColumnInfo>, row: Row, k: nat)
    requires k < |columns|
    requires forall a, b :: 0 <= a < b < |columns| ==> columns[a].name != columns[b].name
    requires columns[k].name in RowMap(columns, row)
    ensures Cell(row, columns[k].column) == Some(RowMap(columns, row)[columns[k].name])
  {
    var front := columns[..|columns| - 1];
    if k < |columns| - 1 {
      assert columns[k] == front[k];
      assert columns[k].name != columns[|columns| - 1].name;
      RowMapCell(front, row, k);
    }
  }

  /** The loop building one row's map. */
  method RowObject(columns: seq<ColumnInfo>, row: Row) returns (rowMap: map<string, string>)
    ensures rowMap == RowMap(columns, row)
  {
    rowMap := map[];
    var k := 0;
    while k < |columns|
      invariant 0 <= k <= |columns|
      invariant rowMap == RowMap(columns[..k], row)
    {
      assert columns[..k + 1][..k] == columns[..k];
      var cell := Cell(row, columns[k].column);
      if cell.Some? && !JavaStrings.IsEmpty(cell.value) {
        rowMap := rowMap[columns[k].name := cell.value];
      }
      k := k + 1;
    }
    assert columns[..k] == columns;
  }

  /** The maps of some rows, in order. */
  function RowMaps(columns: seq<ColumnInfo>, rows: seq<Row>): (r: seq<map<string, string>>)
    ensures |r| == |rows|
    ensures forall j :: 0 <= j < |rows| ==> r[j] == RowMap(columns, rows[j])
  {
    seq(|rows|, j requires 0 <= j < |rows| => RowMap(columns, rows[j]))
  }

  /** What `readSheetData` returns for the sheets of a group: the maps of
      each sheet's data rows, sheet after sheet, all read with the columns
      of the group's first sheet. */
  function SheetData(columns: seq<ColumnInfo>, sheets: seq<Sheet>): seq<map<string, string>>
  {
    if |sheets| == 0 then []
    else
      var last := sheets[|sheets| - 1];
      SheetData(columns, sheets[..|sheets| - 1]) + RowMaps(columns, DataRows(Present(last.rows)))
  }

  /** The row loop over one sheet. */
  method ReadRows(columns: seq<ColumnInfo>, sheet: Sheet) returns (rowMaps: seq<map<string, string>>)
    ensures rowMaps == RowMaps(columns, DataRows(Present(sheet.rows)))
  {
    var rows := Present(sheet.rows);
    rowMaps := [];
    ghost var taken: seq<Row> := [];
    var phase := Header;
    var i := 0;
    while i < |rows| && phase != Ended
      invariant 0 <= i <= |rows|
      invariant ScanInvariant(rows, i, phase, taken)
      invariant rowMaps == RowMaps(columns, taken)
    {
      ScanStep(rows, i, phase, taken);
      var row := rows[i];
      if phase == Header {
        var cell := Cell(row, 0);
        if cell.Some? && cell.value == ROW_SERVER {
          phase := Data;
        }
      } else {
        var rowMap := RowObject(columns, row);
        rowMaps := rowMaps + [rowMap];
        taken := taken + [row];
        var cell := Cell(row, 0);
        if cell.Some? && cell.value == ROW_END {
          phase := Ended;
        }
      }
      i := i + 1;
    }
    if phase != Ended {
      ScanDone(rows, phase, taken);
    }
  }

  /** `readSheetData`, progress reporting aside. */
  method ReadSheetData(info: SheetInfo) returns (r: Result<seq<map<string, string>>, Error>)
    requires |info.sheets| >= 1
    ensures var k := FieldRowIndex(Present(info.sheets[0].rows));
      r == if k == -1 then Err(FieldRowMissing(info.sheets[0].name))
           else Ok(SheetData(Columns(Present(info.sheets[0].rows)[k], LastCellNum(Present(info.sheets[0].rows)[k])),
                             info.sheets))
  {
    var infos := GetColumnInfo(info.sheets[0]);
    if infos.Err? {
      return Err(infos.error);
    }
    var beanList: seq<map<string, string>> := [];
    var s := 0;
    while s < |info.sheets|
      invariant 0 <= s <= |info.sheets|
      invariant beanList == SheetData(infos.value, info.sheets[..s])
    {
      assert info.sheets[..s + 1][..s] == info.sheets[..s];
      var rowMaps := ReadRows(infos.value, info.sheets[s]);
      beanList := beanList + rowMaps;
      s := s + 1;
    }
    assert info.sheets[..s] == info.sheets;
    r := Ok(beanList);
  }

  /** A sheet without a `SERVER` row contributes nothing; with one, exactly
      one map per row after it, up to and including the first `END`. */
  lemma {:induction false} SheetDataRows(columns: seq<ColumnInfo>, sheet: Sheet)
    ensures var rows := Present(sheet.rows);
      var k := FieldRowIndex(rows);
      && (k == -1 ==> SheetData(columns, [sheet]) == [])
      && (k >= 0 ==> SheetData(columns, [sheet]) == RowMaps(columns, UpToEnd(rows[k + 1..])))
  {
    AfterHeaderSpec(Present(sheet.rows));
    assert [sheet][..0] == [];
  }

  /** The sheets of a group are read one after another. */
  lemma {:induction false} SheetDataAppend(columns: seq<ColumnInfo>, a: seq<Sheet>, b: seq<Sheet>)
    ensures SheetData(columns, a + b) == SheetData(columns, a) + SheetData(columns, b)
    decreases |b|
  {
    if |b| > 0 {
      var front := b[..|b| - 1];
      assert (a + b)[..|a + b| - 1] == a + front;
      SheetDataAppend(columns, a, front);
    } else {
      assert a + b == a;
    }
  }
}
