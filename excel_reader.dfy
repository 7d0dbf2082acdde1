/** `ExcelReader`: decodes the sheets named after a resource class into
    instances of that class, one per data row. */
module ExcelReader {
  import opened Wrappers
  import opened Values
  import opened Errors
  import opened Declarations
  import opened SheetUtils
  import JavaStrings
  import Sequences

  /** `FieldInfo`: a column and the declared field its cells fill. */
  datatype CellInfo = CellInfo(index: nat, field: FieldDecl)

  /** The conversion service: a cell text converted to a field type, or
      `None` when there is no converter or the text does not convert. */
  type Converter = (string, ValueType) -> Option<Value>

  // ---------------------------------------------------------------------
  // getCellInfos

  /** The header cells among columns 1 .. `n - 1` that are not blank and
      name a declared field, in ascending column order. */
  function CellInfos(clz: ResourceClass, fieldRow: Row, n: int): (r: seq<CellInfo>)
    decreases if n < 0 then 0 else n
  {
    if n <= 1 then []
    else
      var front := CellInfos(clz, fieldRow, n - 1);
      var cell := Cell(fieldRow, n - 1);
      if cell.Some? && !JavaStrings.IsBlank(cell.value) && FieldNamed(clz.fields, cell.value).Some? then
        front + [CellInfo(n - 1, FieldNamed(clz.fields, cell.value).value)]
      else front
  }

  /** Exactly the columns from 1 whose non-blank header names a declared
      field, in ascending order, each with the field it names. */
  lemma {:induction false} CellInfosSpec(clz: ResourceClass, fieldRow: Row, n: int)
    ensures var r := CellInfos(clz, fieldRow, n);
      && (forall k :: 0 <= k < |r| ==>
            && 1 <= r[k].index < n
            && r[k].field in clz.fields
            && Cell(fieldRow, r[k].index) == Some(r[k].field.name))
      && (forall k, l :: 0 <= k < l < |r| ==> r[k].index < r[l].index)
      && (forall i ::
            (1 <= i < n && Cell(fieldRow, i).Some? && !JavaStrings.IsBlank(Cell(fieldRow, i).value) &&
             FieldNamed(clz.fields, Cell(fieldRow, i).value).Some?) ==>
            CellInfo(i, FieldNamed(clz.fields, Cell(fieldRow, i).value).value) in r)
    decreases if n < 0 then 0 else n
  {
    if n > 1 {
      CellInfosSpec(clz, fieldRow, n - 1);
      var front := CellInfos(clz, fieldRow, n - 1);
      var r := CellInfos(clz, fieldRow, n);
      if r != front {
        assert forall k :: 0 <= k < |front| ==> r[k] == front[k];
      }
    }
  }

  /** A header that names no declared field is skipped. */
  lemma {:induction false} UndeclaredHeaderSkipped(clz: ResourceClass, fieldRow: Row, n: int, i: int)
    requires Cell(fieldRow, i).Some? && FieldNamed(clz.fields, Cell(fieldRow, i).value).None?
    ensures forall k :: 0 <= k < |CellInfos(clz, fieldRow, n)| ==> CellInfos(clz, fieldRow, n)[k].index != i
  {
    CellInfosSpec(clz, fieldRow, n);
  }

  /** The loop of `getCellInfos` over the field row's cells. */
  method CellInfosOf(clz: ResourceClass, fieldRow: Row) returns (result: seq<CellInfo>)
    ensures result == CellInfos(clz, fieldRow, LastCellNum(fieldRow))
  {
    result := [];
    var n := LastCellNum(fieldRow);
    var i := 1;
    while i < n
      invariant 1 <= i && (i <= n || i == 1)
      invariant result == CellInfos(clz, fieldRow, i)
    {
      var cell := Cell(fieldRow, i);
      if cell.Some? && !JavaStrings.IsBlank(cell.value) {
        var field := FieldNamed(clz.fields, cell.value);
        if field.Some? {
          result := result + [CellInfo(i, field.value)];
        }
      }
      i := i + 1;
    }
    assert n <= 1 ==> CellInfos(clz, fieldRow, n) == [] == CellInfos(clz, fieldRow, i);
  }

  /** What `getCellInfos` gives for a sheet: refused without a field row. */
  function SheetCellInfos(clz: ResourceClass, sheet: Sheet): (r: Result<seq<CellInfo>, Error>)
    ensures r.Err? <==> FieldRowIndex(Present(sheet.rows)) == -1
  {
    var rows := Present(sheet.rows);
    var k := FieldRowIndex(rows);
    if k == -1 then Err(FieldRowMissing(clz.name)) else Ok(CellInfos(clz, rows[k], LastCellNum(rows[k])))
  }

  /** `getCellInfos`. */
  method GetCellInfos(sheet: Sheet, clz: ResourceClass) returns (r: Result<seq<CellInfo>, Error>)
    ensures r == SheetCellInfos(clz, sheet)
  {
    var fieldRow := GetFieldRow(sheet);
    if fieldRow.None? {
      return Err(FieldRowMissing(clz.name));
    }
    var infos := CellInfosOf(clz, fieldRow.value);
    r := Ok(infos);
  }

  // ---------------------------------------------------------------------
  // Instances

  /** `newInstance`: every instance field at its type's default value. */
  function NewInstance(fields: seq<FieldDecl>): (r: Record)
    ensures forall f :: f in fields && !f.isStatic ==> FieldMember(f.name) in r
    ensures forall m :: m in r ==>
      (m.FieldMember? && exists f :: f in fields && !f.isStatic && f.name == m.name && r[m] == Default(f.fieldType))
  {
    if |fields| == 0 then map[]
    else
      var front := fields[..|fields| - 1];
      var f := fields[|fields| - 1];
      assert forall g :: g in fields <==> g in front || g == f;
      var r := NewInstance(front);
      if f.isStatic then r else r[FieldMember(f.name) := Default(f.fieldType)]
  }

  /** Whether `content` converts to a value the field accepts. */
  predicate Converts(f: FieldDecl, content: string, convert: Converter)
  {
    convert(content, f.fieldType).Some? && HasType(convert(content, f.fieldType).value, f.fieldType)
  }

  /** `inject`: converts the text and assigns it; a missing converter, a
      failed conversion or a refused assignment is an error. */
  function Inject(r: Record, f: FieldDecl, content: string, convert: Converter): (res: Result<Record, Error>)
    ensures res.Ok? <==> Converts(f, content, convert)
    ensures res.Ok? ==> res.value == r[FieldMember(f.name) := convert(content, f.fieldType).value]
    ensures res.Err? ==> res.error == ConversionFailed(f.name)
  {
    match convert(content, f.fieldType)
    case None => Err(ConversionFailed(f.name))
    case Some(v) => if HasType(v, f.fieldType) then Ok(r[FieldMember(f.name) := v]) else Err(ConversionFailed(f.name))
  }

  /** Whether the row has a non-empty cell in the info's column. */
  predicate Filled(row: Row, info: CellInfo)
  {
    Cell(row, info.index).Some? && !JavaStrings.IsEmpty(Cell(row, info.index).value)
  }

  /** The loop over the cell infos, from `base`. */
  function Fill(base: Record, infos: seq<CellInfo>, row: Row, convert: Converter): Result<Record, Error>
  {
    if |infos| == 0 then Ok(base)
    else match Fill(base, infos[..|infos| - 1], row, convert)
      case Err(e) => Err(e)
      case Ok(r) =>
        var info := infos[|infos| - 1];
        if Filled(row, info) then Inject(r, info.field, Cell(row, info.index).value, convert) else Ok(r)
  }

  /** Filling fails exactly when some non-empty cell does not convert. */
  lemma {:induction false} FillFails(base: Record, infos: seq<CellInfo>, row: Row, convert: Converter)
    ensures Fill(base, infos, row, convert).Err? <==>
      exists k :: 0 <= k < |infos| && Filled(row, infos[k]) &&
        !Converts(infos[k].field, Cell(row, infos[k].index).value, convert)
  {
    if |infos| > 0 {
      var front := infos[..|infos| - 1];
      FillFails(base, front, row, convert);
      assert forall k :: 0 <= k < |front| ==> infos[k] == front[k];
    }
  }

  /** When filling succeeds, only the fields of non-empty cells differ
      from `base`. */
  lemma {:induction false} FillKeeps(base: Record, infos: seq<CellInfo>, row: Row, convert: Converter)
    ensures Fill(base, infos, row, convert).Ok? ==>
      forall m :: (forall k :: 0 <= k < |infos| && Filled(row, infos[k]) ==> m != FieldMember(infos[k].field.name)) ==>
        Values.Read(Fill(base, infos, row, convert).value, m) == Values.Read(base, m)
  {
    if |infos| > 0 {
      var front := infos[..|infos| - 1];
      FillKeeps(base, front, row, convert);
      assert forall k :: 0 <= k < |front| ==> infos[k] == front[k];
    }
  }

  /** When filling succeeds, a field filled by no later column holds its
      cell's converted text. */
  lemma {:induction false} FillSets(base: Record, infos: seq<CellInfo>, row: Row, convert: Converter)
    ensures Fill(base, infos, row, convert).Ok? ==>
      forall k ::
        (0 <= k < |infos| && Filled(row, infos[k]) &&
         (forall l :: k < l < |infos| && Filled(row, infos[l]) ==> infos[l].field.name != infos[k].field.name)) ==>
        convert(Cell(row, infos[k].index).value, infos[k].field.fieldType) ==
        Some(Values.Read(Fill(base, infos, row, convert).value, FieldMember(infos[k].field.name)))
  {
    if |infos| > 0 {
      var front := infos[..|infos| - 1];
      FillSets(base, front, row, convert);
      assert forall k :: 0 <= k < |front| ==> infos[k] == front[k];
    }
  }

  /** The instance a data row becomes. */
  function Instance(clz: ResourceClass, infos: seq<CellInfo>, row: Row, convert: Converter): Result<Record, Error>
  {
    Fill(NewInstance(clz.fields), infos, row, convert)
  }

  /** `Instance` as a function of the row. */
  function RowReader(clz: ResourceClass, infos: seq<CellInfo>, convert: Converter): Row -> Result<Record, Error>
  {
    (row: Row) => Instance(clz, infos, row, convert)
  }

  /** The loop building one instance. */
  method NewRowInstance(clz: ResourceClass, infos: seq<CellInfo>, row: Row, convert: Converter)
    returns (r: Result<Record, Error>)
    ensures r == Instance(clz, infos, row, convert)
  {
    var instance := NewInstance(clz.fields);
    var k := 0;
    while k < |infos|
      invariant 0 <= k <= |infos|
      invariant Fill(NewInstance(clz.fields), infos[..k], row, convert) == Ok(instance)
    {
      assert infos[..k + 1][..k] == infos[..k];
      var info := infos[k];
      var cell := Cell(row, info.index);
      if cell.Some? && !JavaStrings.IsEmpty(cell.value) {
        var injected := Inject(instance, info.field, cell.value, convert);
        if injected.Err? {
          FillPrefixErr(NewInstance(clz.fields), infos, row, convert, k + 1);
          return Err(injected.error);
        }
        instance := injected.value;
      }
      k := k + 1;
    }
    assert infos[..k] == infos;
    r := Ok(instance);
  }

  /** A failure part way through the infos is the row's failure. */
  lemma {:induction false} FillPrefixErr(base: Record, infos: seq<CellInfo>, row: Row, convert: Converter, i: nat)
    requires i <= |infos| && Fill(base, infos[..i], row, convert).Err?
    ensures Fill(base, infos, row, convert) == Fill(base, infos[..i], row, convert)
    decreases |infos| - i
  {
    if i < |infos| {
      assert infos[..i + 1][..i] == infos[..i];
      FillPrefixErr(base, infos, row, convert, i + 1);
    } else {
      assert infos[..i] == infos;
    }
  }

  // ---------------------------------------------------------------------
  // read

  /** The instances of one sheet: one per data row, in row order. */
  function ReadSheet(clz: ResourceClass, sheet: Sheet, convert: Converter): Result<seq<Record>, Error>
  {
    match SheetCellInfos(clz, sheet)
    case Err(e) => Err(e)
    case Ok(infos) => Sequences.MapAll(RowReader(clz, infos, convert), DataRows(Present(sheet.rows)))
  }

  /** The instances of the sheets of a group, sheet after sheet. */
  function ReadSheets(clz: ResourceClass, sheets: seq<Sheet>, convert: Converter): Result<seq<Record>, Error>
  {
    if |sheets| == 0 then Ok([])
    else match ReadSheets(clz, sheets[..|sheets| - 1], convert)
      case Err(e) => Err(e)
      case Ok(front) => match ReadSheet(clz, sheets[|sheets| - 1], convert)
        case Err(e) => Err(e)
        case Ok(last) => Ok(front + last)
  }

  /** What `read` decodes from a workbook: nothing when no sheet is named
      after the class's simple name. */
  function Read(wb: seq<Sheet>, clz: ResourceClass, convert: Converter): Result<seq<Record>, Error>
  {
    var groups := ListSheets(wb, None);
    if clz.simpleName !in groups then Ok([])
    else ReadSheets(clz, groups[clz.simpleName].sheets, convert)
  }

  /** The row loop over one sheet. */
  method ReadSheetRows(clz: ResourceClass, infos: seq<CellInfo>, sheet: Sheet, convert: Converter)
    returns (r: Result<seq<Record>, Error>)
    ensures r == Sequences.MapAll(RowReader(clz, infos, convert), DataRows(Present(sheet.rows)))
  {
    var rows := Present(sheet.rows);
    ghost var reader := RowReader(clz, infos, convert);
    var result: seq<Record> := [];
    ghost var taken: seq<Row> := [];
    var phase := Header;
    var i := 0;
    while i < |rows| && phase != Ended
      invariant 0 <= i <= |rows|
      invariant ScanInvariant(rows, i, phase, taken)
      invariant Sequences.MapAll(reader, taken) == Ok(result)
    {
      ScanStep(rows, i, phase, taken);
      var row := rows[i];
      if phase == Header {
        var cell := Cell(row, 0);
        if cell.Some? && cell.value == ROW_SERVER {
          phase := Data;
        }
      } else {
        var instance := NewRowInstance(clz, infos, row, convert);
        Sequences.MapAllSnoc(reader, taken, row);
        if instance.Err? {
          ghost var rest := if IsMarker(row, ROW_END) then [] else UpToEnd(rows[i + 1..]);
          Sequences.MapAllConcat(reader, taken + [row], rest);
          return Err(instance.error);
        }
        result := result + [instance.value];
        taken := taken + [row];
        var cell := Cell(row, 0);
        if cell.Some? && cell.value == ROW_END {
          phase := Ended;
        }
      }
      i := i + 1;
    }
    if phase != Ended {
      ScanDone(rows, phase, taken);
    }
    r := Ok(result);
  }

  /** `read`: the group named after the class, sheet by sheet. */
  method ReadWorkbook(wb: seq<Sheet>, clz: ResourceClass, convert: Converter) returns (r: Result<seq<Record>, Error>)
    ensures r == Read(wb, clz, convert)
  {
    var sheetInfos := ListSheetsOf(wb, None);
    if clz.simpleName !in sheetInfos {
      return Ok([]);
    }
    var sheets := sheetInfos[clz.simpleName].sheets;
    var result: seq<Record> := [];
    var s := 0;
    while s < |sheets|
      invariant 0 <= s <= |sheets|
      invariant ReadSheets(clz, sheets[..s], convert) == Ok(result)
    {
      assert sheets[..s + 1][..s] == sheets[..s];
      var infos := GetCellInfos(sheets[s], clz);
      if infos.Err? {
        ReadSheetsPrefixErr(clz, sheets, convert, s + 1);
        return Err(infos.error);
      }
      var instances := ReadSheetRows(clz, infos.value, sheets[s], convert);
      if instances.Err? {
        ReadSheetsPrefixErr(clz, sheets, convert, s + 1);
        return Err(instances.error);
      }
      result := result + instances.value;
      s := s + 1;
    }
    assert sheets[..s] == sheets;
    r := Ok(result);
  }

  /** A failing sheet fails the whole read. */
  lemma {:induction false} ReadSheetsPrefixErr(clz: ResourceClass, sheets: seq<Sheet>, convert: Converter, i: nat)
    requires i <= |sheets| && ReadSheets(clz, sheets[..i], convert).Err?
    ensures ReadSheets(clz, sheets, convert) == ReadSheets(clz, sheets[..i], convert)
    decreases |sheets| - i
  {
    if i < |sheets| {
      assert sheets[..i + 1][..i] == sheets[..i];
      ReadSheetsPrefixErr(clz, sheets, convert, i + 1);
    } else {
      assert sheets[..i] == sheets;
    }
  }

  // ---------------------------------------------------------------------
  // Properties of read

  /** No sheet named after the class: nothing is read. */
  lemma {:induction false} ReadWithoutGroup(wb: seq<Sheet>, clz: ResourceClass, convert: Converter)
    requires forall s :: s in wb ==> SheetKey(s) != Some(clz.simpleName)
    ensures Read(wb, clz, convert) == Ok([])
  {
    ListSheetsSpec(wb, None);
    KeyedEmpty(wb, clz.simpleName);
  }

  lemma {:induction false} KeyedEmpty(wb: seq<Sheet>, key: string)
    requires forall s :: s in wb ==> SheetKey(s) != Some(key)
    ensures Keyed(wb, key) == []
  {
    if |wb| > 0 {
      assert forall s :: s in wb[..|wb| - 1] ==> s in wb;
      KeyedEmpty(wb[..|wb| - 1], key);
      assert wb[|wb| - 1] in wb;
    }
  }

  /** The sheets read are the workbook's sheets named after the class, in
      workbook order. */
  lemma {:induction false} ReadGroup(wb: seq<Sheet>, clz: ResourceClass, convert: Converter)
    ensures Read(wb, clz, convert) == ReadSheets(clz, Keyed(wb, clz.simpleName), convert)
  {
    ListSheetsSpec(wb, None);
  }

  /** One sheet gives one instance per data row: none for the rows up to
      the `SERVER` row, then every row up to and including the first `END`
      row. */
  lemma {:induction false} ReadSheetRowCount(clz: ResourceClass, sheet: Sheet, convert: Converter)
    requires ReadSheet(clz, sheet, convert).Ok?
    ensures var rows := Present(sheet.rows);
      var k := FieldRowIndex(rows);
      && k >= 0
      && |ReadSheet(clz, sheet, convert).value| == |UpToEnd(rows[k + 1..])|
  {
    var rows := Present(sheet.rows);
    var infos := SheetCellInfos(clz, sheet);
    assert infos.Ok?;
    var data := Sequences.MapAll(RowReader(clz, infos.value, convert), DataRows(rows));
    assert ReadSheet(clz, sheet, convert) == data;
    AfterHeaderSpec(rows);
  }

  /** The sheets of a group are read one after another and concatenated. */
  lemma {:induction false} ReadSheetsAppend(clz: ResourceClass, a: seq<Sheet>, b: seq<Sheet>, convert: Converter)
    requires ReadSheets(clz, a, convert).Ok? && ReadSheets(clz, b, convert).Ok?
    ensures ReadSheets(clz, a + b, convert) == Ok(ReadSheets(clz, a, convert).value + ReadSheets(clz, b, convert).value)
    decreases |b|
  {
    if |b| == 0 {
      assert a + b == a;
      assert ReadSheets(clz, a, convert).value + [] == ReadSheets(clz, a, convert).value;
    } else {
      var front := b[..|b| - 1];
      assert (a + b)[..|a + b| - 1] == a + front;
      ReadSheetsAppend(clz, a, front, convert);
      Sequences.ConcatAssociative(ReadSheets(clz, a, convert).value, ReadSheets(clz, front, convert).value,
                                  ReadSheet(clz, b[|b| - 1], convert).value);
    }
  }
}
