/** coping_replacing_values_in_Excel.py: in each sheet of a workbook, replaces the codes of some
    columns by their labels, drops the 'Линк' column of the 'Стълб' sheet and appends an empty
    comments sheet; separately, extends the first row of each sheet with extra header cells. */
module ExcelSubstitution {
  import opened Tables

  /** A column of a pandas DataFrame: its label and its cells, top to bottom. */
  datatype Column = Column(name: string, cells: seq<Value>)

  /** A sheet read with a header row: its name and its columns, left to right. */
  datatype Sheet = Sheet(name: string, columns: seq<Column>)

  /** The exceptions the scripts let escape: a column that is not there, a sheet without a first row. */
  datatype ExcelError = KeyError(column: string) | IndexError(sheet: string)

  /** The items of one sheet's entry in substitution_dicts: column label and the code-to-label mapping. */
  type ColumnMappings = seq<(string, map<int, string>)>

  const PoleSheet: string := "Стълб"
  const LinkColumn: string := "Линк"
  const CommentsSheetName: string := "Коментари в ГИС"
  const RemarkHeader: string := "Забележка ЕРМЗ"
  const PontechHeader: string := "Pontech"

  /** substitution_dicts: the sheets whose codes are replaced, each with its columns in dict order. */
  const SubstitutionDicts: map<string, ColumnMappings> := map[
    "Стълб" := [("Подтип", map[0 := "Стълб - недиференцирано", 1 := "Дървен", 2 := "Композитен",
                                3 := "Стоманорешетъчен", 4 := "Стоманотръбен", 5 := "Стоманобетонен"])],
    "Оборудване на стълб" := [("Вид оборудване", map[1 := "Изолатор", 2 := "Конзола", 3 := "Обтяжка/подпора",
                                                     4 := "Заземителен контур"])],
    "РОМ - РОС" := [("Експлоатационно състояние", map[0 := "Изключено", 1 := "Включено", 2 := "НЯМА ИНФОРМАЦИЯ"]),
                    ("Вид", map[0 := "Секциониращ разединител", 1 := "Товаров разединител с ДУ", 2 := "Реклоузер",
                                3 := "РОМ", 4 := "РОС"])],
    "Вентилен отвод" := [("Фази", map[0 := "НЯМА ИНФОРМАЦИЯ", 1 := "L3", 2 := "L2", 3 := "L2-L3", 4 := "L1",
                                      5 := "L1-L3", 6 := "L1-L2", 7 := "L1-L2-L3"])]
  ]

  /** Series.map(mapping).fillna(original) on one cell: a code with a label becomes the label, anything else stays. */
  function SubstituteCell(v: Value, mapping: map<int, string>): Value
  {
    if v.Int? && v.i in mapping then Str(mapping[v.i]) else v
  }

  function SubstituteCells(cells: seq<Value>, mapping: map<int, string>): (r: seq<Value>)
    ensures |r| == |cells|
    ensures forall i :: 0 <= i < |cells| ==> r[i] == SubstituteCell(cells[i], mapping)
  {
    seq(|cells|, i requires 0 <= i < |cells| => SubstituteCell(cells[i], mapping))
  }

  /** A cell changes only when it holds a code of the mapping, and then it holds that code's label. */
  lemma SubstituteCellsChange(cells: seq<Value>, mapping: map<int, string>, i: nat)
    requires i < |cells|
    ensures SubstituteCells(cells, mapping)[i] != cells[i] <==>
            cells[i].Int? && cells[i].i in mapping
    ensures cells[i].Int? && cells[i].i in mapping ==> SubstituteCells(cells, mapping)[i] == Str(mapping[cells[i].i])
  {
  }

  /** Labels are text, never codes, so substituting again changes nothing. */
  lemma SubstituteCellsIdempotent(cells: seq<Value>, mapping: map<int, string>)
    ensures SubstituteCells(SubstituteCells(cells, mapping), mapping) == SubstituteCells(cells, mapping)
  {
    var once := SubstituteCells(cells, mapping);
    assert forall i :: 0 <= i < |cells| ==> SubstituteCell(once[i], mapping) == once[i];
  }

  function Names(columns: seq<Column>): (names: seq<string>)
    ensures |names| == |columns|
    ensures forall i :: 0 <= i < |columns| ==> names[i] == columns[i].name
  {
    seq(|columns|, i requires 0 <= i < |columns| => columns[i].name)
  }

  /** df[column] = df[column].map(mapping).fillna(df[column]): every column of that label is substituted. */
  function SubstituteColumn(columns: seq<Column>, column: string, mapping: map<int, string>): (r: seq<Column>)
    ensures |r| == |columns| && Names(r) == Names(columns)
  {
    seq(|columns|, i requires 0 <= i < |columns| =>
      if columns[i].name == column then Column(column, SubstituteCells(columns[i].cells, mapping)) else columns[i])
  }

  /** The loop over one sheet's mappings, in dict order; the first label the sheet lacks raises KeyError. */
  function SubstituteAll(columns: seq<Column>, mappings: ColumnMappings): Result<seq<Column>, ExcelError>
    decreases |mappings|
  {
    if |mappings| == 0 then Ok(columns)
    else
      var n := |mappings| - 1;
      match SubstituteAll(columns, mappings[..n])
      case Err(e) => Err(e)
      case Ok(cs) =>
        if mappings[n].0 in Names(cs) then Ok(SubstituteColumn(cs, mappings[n].0, mappings[n].1))
        else Err(KeyError(mappings[n].0))
  }

  /** The substitutions raise exactly when some listed label is not a column of the sheet, and then for the
      first such label; otherwise the columns keep their labels and order. */
  lemma {:induction false} SubstituteAllOutcome(columns: seq<Column>, mappings: ColumnMappings)
    ensures SubstituteAll(columns, mappings).Ok? <==> forall j :: 0 <= j < |mappings| ==> mappings[j].0 in Names(columns)
    ensures SubstituteAll(columns, mappings).Ok? ==> Names(SubstituteAll(columns, mappings).value) == Names(columns)
    ensures SubstituteAll(columns, mappings).Err? ==>
              exists j :: 0 <= j < |mappings| && mappings[j].0 !in Names(columns) &&
                          SubstituteAll(columns, mappings).error == KeyError(mappings[j].0) &&
                          forall i :: 0 <= i < j ==> mappings[i].0 in Names(columns)
    decreases |mappings|
  {
    if |mappings| > 0 {
      var n := |mappings| - 1;
      var pre := mappings[..n];
      SubstituteAllOutcome(columns, pre);
      assert forall i :: 0 <= i < n ==> pre[i] == mappings[i];
      if SubstituteAll(columns, pre).Err? {
        var j :| 0 <= j < n && pre[j].0 !in Names(columns) && SubstituteAll(columns, pre).error == KeyError(pre[j].0) &&
                 forall i :: 0 <= i < j ==> pre[i].0 in Names(columns);
        assert mappings[j] == pre[j];
      }
    }
  }

  /** When the substitutions succeed, a column whose label is listed holds its cells substituted by that
      label's mapping, and every other column is as it was. */
  lemma {:induction false} SubstituteAllEffect(columns: seq<Column>, mappings: ColumnMappings, k: nat)
    requires SubstituteAll(columns, mappings).Ok?
    requires Distinct(Firsts(mappings))
    requires k < |columns|
    ensures k < |SubstituteAll(columns, mappings).value|
    ensures columns[k].name !in Firsts(mappings) ==> SubstituteAll(columns, mappings).value[k] == columns[k]
    ensures forall j :: 0 <= j < |mappings| && mappings[j].0 == columns[k].name ==>
              SubstituteAll(columns, mappings).value[k] == Column(columns[k].name, SubstituteCells(columns[k].cells, mappings[j].1))
    decreases |mappings|
  {
    SubstituteAllOutcome(columns, mappings);
    if |mappings| > 0 {
      var n := |mappings| - 1;
      var pre := mappings[..n];
      assert Firsts(mappings) == Firsts(pre) + [mappings[n].0];
      assert Distinct(Firsts(pre)) by {
        assert forall i :: 0 <= i < n ==> Firsts(pre)[i] == Firsts(mappings)[i];
      }
      SubstituteAllEffect(columns, pre, k);
      forall j | 0 <= j < n && mappings[j].0 == columns[k].name
        ensures mappings[n].0 != columns[k].name
      {
        assert Firsts(mappings)[j] != Firsts(mappings)[n];
      }
      forall j | 0 <= j < n ensures pre[j] == mappings[j] {
      }
    }
  }

  /** df.drop(columns=[column]): every column of that label goes, the others keep their order. */
  function DropColumn(columns: seq<Column>, column: string): (r: seq<Column>)
    decreases |columns|
  {
    if |columns| == 0 then []
    else
      var n := |columns| - 1;
      DropColumn(columns[..n], column) + if columns[n].name == column then [] else [columns[n]]
  }

  /** After the drop no column has that label, and a column is kept exactly when its label differs. */
  lemma {:induction false} DropColumnSpec(columns: seq<Column>, column: string, c: Column)
    ensures column !in Names(DropColumn(columns, column))
    ensures c in DropColumn(columns, column) <==> c in columns && c.name != column
    decreases |columns|
  {
    if |columns| > 0 {
      var n := |columns| - 1;
      DropColumnSpec(columns[..n], column, c);
      assert columns == columns[..n] + [columns[n]];
      var r := DropColumn(columns, column);
      var pre := DropColumn(columns[..n], column);
      forall i | 0 <= i < |r| ensures r[i].name != column {
        if i < |pre| {
          assert r[i] == pre[i];
          assert Names(pre)[i] == pre[i].name;
        }
      }
    }
  }

  /** What the loop of apply_substitutions does with one sheet. */
  function ProcessSheet(sheet: Sheet, subs: map<string, ColumnMappings>): Result<Sheet, ExcelError>
  {
    if sheet.name == PoleSheet && LinkColumn !in Names(sheet.columns) then Err(KeyError(LinkColumn))
    else
      var columns := if sheet.name == PoleSheet then DropColumn(sheet.columns, LinkColumn) else sheet.columns;
      if sheet.name in subs then
        match SubstituteAll(columns, subs[sheet.name])
        case Ok(cs) => Ok(Sheet(sheet.name, cs))
        case Err(e) => Err(e)
      else Ok(Sheet(sheet.name, columns))
  }

  /** A sheet that is not 'Стълб' and has no mapping is written as read. */
  lemma ProcessSheetUnlisted(sheet: Sheet, subs: map<string, ColumnMappings>)
    requires sheet.name != PoleSheet && sheet.name !in subs
    ensures ProcessSheet(sheet, subs) == Ok(sheet)
  {
  }

  /** The 'Стълб' sheet comes out without a 'Линк' column, whatever its mappings do; it raises when it has none. */
  lemma ProcessSheetDropsLink(sheet: Sheet, subs: map<string, ColumnMappings>)
    requires sheet.name == PoleSheet
    ensures ProcessSheet(sheet, subs).Err? <== LinkColumn !in Names(sheet.columns)
    ensures ProcessSheet(sheet, subs).Ok? ==> LinkColumn !in Names(ProcessSheet(sheet, subs).value.columns)
  {
    var dropped := DropColumn(sheet.columns, LinkColumn);
    DropColumnSpec(sheet.columns, LinkColumn, Column(LinkColumn, []));
    if sheet.name in subs {
      SubstituteAllOutcome(dropped, subs[sheet.name]);
    }
  }

  /** The sheets in workbook order, until one raises. */
  function ProcessSheets(sheets: seq<Sheet>, subs: map<string, ColumnMappings>): Result<seq<Sheet>, ExcelError>
    decreases |sheets|
  {
    if |sheets| == 0 then Ok([])
    else
      var n := |sheets| - 1;
      match ProcessSheets(sheets[..n], subs)
      case Err(e) => Err(e)
      case Ok(out) =>
        match ProcessSheet(sheets[n], subs)
        case Err(e) => Err(e)
        case Ok(s) => Ok(out + [s])
  }

  /** The output sheets are the input sheets, one for one and in order, each processed by ProcessSheet. */
  lemma {:induction false} ProcessSheetsOrder(sheets: seq<Sheet>, subs: map<string, ColumnMappings>, i: nat)
    requires ProcessSheets(sheets, subs).Ok?
    requires i < |sheets|
    ensures |ProcessSheets(sheets, subs).value| == |sheets|
    ensures ProcessSheet(sheets[i], subs) == Ok(ProcessSheets(sheets, subs).value[i])
    decreases |sheets|
  {
    var n := |sheets| - 1;
    if i < n {
      ProcessSheetsOrder(sheets[..n], subs, i);
      assert sheets[..n][i] == sheets[i];
    } else if n > 0 {
      ProcessSheetsOrder(sheets[..n], subs, 0);
    }
  }

  /** The comments sheet: no rows and the eight fixed column labels. */
  function CommentsSheet(): (s: Sheet)
    ensures s.name == CommentsSheetName && |s.columns| == 8
    ensures forall i :: 0 <= i < 8 ==> s.columns[i].cells == []
  {
    Sheet(CommentsSheetName, [Column("OBJECTID *", []), Column("Текст", []),
                              Column(RemarkHeader, []), Column(PontechHeader, []),
                              Column(RemarkHeader, []), Column(PontechHeader, []),
                              Column(RemarkHeader, []), Column(PontechHeader, [])])
  }

  /** The inner loop of apply_substitutions over one sheet's mappings, reassigning df[column]. */
  method SubstituteSheet(columns: seq<Column>, mappings: ColumnMappings) returns (result: Result<seq<Column>, ExcelError>)
    ensures result == SubstituteAll(columns, mappings)
  {
    var df := columns;
    var j := 0;
    while j < |mappings|
      invariant 0 <= j <= |mappings|
      invariant SubstituteAll(columns, mappings[..j]) == Ok(df)
    {
      assert mappings[..j + 1][..j] == mappings[..j];
      var (column, mapping) := mappings[j];
      if column !in Names(df) {
        result := Err(KeyError(column));
        SubstituteAllErrorStays(columns, mappings, j + 1);
        assert mappings[..j + 1][j] == mappings[j];
        return;
      }
      df := SubstituteColumn(df, column, mapping);
      j := j + 1;
    }
    assert mappings[..j] == mappings;
    result := Ok(df);
  }

  /** Once a mapping has raised, the later mappings are never reached. */
  lemma {:induction false} SubstituteAllErrorStays(columns: seq<Column>, mappings: ColumnMappings, j: nat)
    requires j <= |mappings| && SubstituteAll(columns, mappings[..j]).Err?
    ensures SubstituteAll(columns, mappings) == SubstituteAll(columns, mappings[..j])
    decreases |mappings| - j
  {
    if j < |mappings| {
      assert mappings[..j + 1][..j] == mappings[..j];
      SubstituteAllErrorStays(columns, mappings, j + 1);
    } else {
      assert mappings[..j] == mappings;
    }
  }

  /** apply_substitutions: every sheet in order, then the comments sheet. The workbook's sheets, read with
      their header row, are a parameter; the result is what is written, or the exception. */
  method ApplySubstitutions(sheets: seq<Sheet>, subs: map<string, ColumnMappings>) returns (result: Result<seq<Sheet>, ExcelError>)
    ensures result == match ProcessSheets(sheets, subs)
                      case Ok(out) => Ok(out + [CommentsSheet()])
                      case Err(e) => Err(e)
  {
    var written: seq<Sheet> := [];
    var i := 0;
    while i < |sheets|
      invariant 0 <= i <= |sheets|
      invariant ProcessSheets(sheets[..i], subs) == Ok(written)
    {
      assert sheets[..i + 1][..i] == sheets[..i];
      var sheet := sheets[i];
      var columns := sheet.columns;
      if sheet.name == PoleSheet {
        if LinkColumn !in Names(columns) {
          result := Err(KeyError(LinkColumn));
          ProcessSheetsErrorStays(sheets, subs, i + 1);
          return;
        }
        columns := DropColumn(columns, LinkColumn);
      }
      if sheet.name in subs {
        var substituted := SubstituteSheet(columns, subs[sheet.name]);
        if substituted.Err? {
          result := Err(substituted.error);
          ProcessSheetsErrorStays(sheets, subs, i + 1);
          return;
        }
        columns := substituted.value;
      }
      written := written + [Sheet(sheet.name, columns)];
      i := i + 1;
    }
    assert sheets[..i] == sheets;
    result := Ok(written + [CommentsSheet()]);
  }

  /** Once a sheet has raised, the later sheets are never reached. */
  lemma {:induction false} ProcessSheetsErrorStays(sheets: seq<Sheet>, subs: map<string, ColumnMappings>, i: nat)
    requires i <= |sheets| && ProcessSheets(sheets[..i], subs).Err?
    ensures ProcessSheets(sheets, subs) == ProcessSheets(sheets[..i], subs)
    decreases |sheets| - i
  {
    if i < |sheets| {
      assert sheets[..i + 1][..i] == sheets[..i];
      ProcessSheetsErrorStays(sheets, subs, i + 1);
    } else {
      assert sheets[..i] == sheets;
    }
  }

  /** A position of Python slicing: negative counts from the end, and both ends are clamped to the sequence. */
  function SliceIndex(i: int, length: nat): (k: nat)
    ensures k <= length
    ensures 0 <= i <= length ==> k == i
    ensures -(length as int) <= i < 0 ==> k == length + i
  {
    if i < 0 then (if i + length < 0 then 0 else i + length) else if i > length then length else i
  }

  /** s[start:end] in Python, with None for an open end. */
  function PySlice<T>(s: seq<T>, start: int, end: Option<int>): seq<T>
  {
    var lo := SliceIndex(start, |s|);
    var hi := if end.None? then |s| else SliceIndex(end.value, |s|);
    if lo < hi then s[lo..hi] else []
  }

  /** The slice of the 'Стълб' sheet leaves out the first cell and the last three. */
  lemma PySliceDropsEnds<T>(s: seq<T>)
    requires |s| >= 4
    ensures PySlice(s, 1, Some(-3)) == s[1..|s| - 3]
    ensures |PySlice(s, 1, Some(-3))| == |s| - 4
  {
  }

  /** An open end keeps everything from start on. */
  lemma PySliceOpenEnd<T>(s: seq<T>, start: nat)
    requires start <= |s|
    ensures PySlice(s, start, None) == s[start..]
  {
  }

  /** header_length.get(sheet_name, {'start': 0, 'end': None}). */
  function HeaderBounds(sheetName: string): (int, Option<int>)
  {
    if sheetName == PoleSheet then (1, Some(-3))
    else if sheetName in {"Оборудване на стълб", "РОМ - РОС", "Вентилен отвод", "ИЗКС", "Проводник"} then (1, None)
    else (0, None)
  }

  /** .dropna(): the cells that are not empty, in order. */
  function DropEmpty(cells: seq<Value>): (r: seq<Value>)
    ensures |r| <= |cells|
    decreases |cells|
  {
    if |cells| == 0 then []
    else
      var n := |cells| - 1;
      DropEmpty(cells[..n]) + if cells[n] == Null then [] else [cells[n]]
  }

  /** dropna keeps exactly the non-empty cells. */
  lemma {:induction false} DropEmptyMember(cells: seq<Value>, v: Value)
    ensures v in DropEmpty(cells) <==> v in cells && v != Null
    decreases |cells|
  {
    if |cells| > 0 {
      var n := |cells| - 1;
      DropEmptyMember(cells[..n], v);
      assert cells == cells[..n] + [cells[n]];
    }
  }

  /** The headers of a sheet: its first row, sliced by the sheet's bounds, without empty cells. */
  function ExtractHeaders(firstRow: seq<Value>, sheetName: string): (headers: seq<Value>)
    ensures forall v :: v in headers ==> v != Null
  {
    var (start, end) := HeaderBounds(sheetName);
    var r := DropEmpty(PySlice(firstRow, start, end));
    assert forall v :: v in r ==> v != Null by {
      forall v | v in r ensures v != Null {
        DropEmptyMember(PySlice(firstRow, start, end), v);
      }
    }
    r
  }

  /** A sheet that is neither 'Стълб' nor configured has all of its non-empty first-row cells as headers. */
  lemma ExtractHeadersDefault(firstRow: seq<Value>, sheetName: string, v: Value)
    requires HeaderBounds(sheetName) == (0, None)
    ensures v in ExtractHeaders(firstRow, sheetName) <==> v in firstRow && v != Null
  {
    assert PySlice(firstRow, 0, None) == firstRow;
    DropEmptyMember(firstRow, v);
  }

  /** headers + ['Забележка ЕРМЗ', 'Pontech'] * 3. */
  function ExtendedHeaders(headers: seq<Value>): seq<Value>
  {
    var pair := [Str(RemarkHeader), Str(PontechHeader)];
    headers + pair + pair + pair
  }

  /** The extension keeps the headers in front and adds six cells, alternating remark and Pontech. */
  lemma ExtendedHeadersShape(headers: seq<Value>)
    ensures |ExtendedHeaders(headers)| == |headers| + 6
    ensures ExtendedHeaders(headers)[..|headers|] == headers
    ensures forall k :: 0 <= k < 3 ==> ExtendedHeaders(headers)[|headers| + 2 * k] == Str(RemarkHeader) &&
                                       ExtendedHeaders(headers)[|headers| + 2 * k + 1] == Str(PontechHeader)
  {
  }

  /** A sheet read without a header row: its name and its rows of cells. */
  datatype RawSheet = RawSheet(name: string, rows: seq<seq<Value>>)

  function Nulls(n: nat): (r: seq<Value>)
    ensures |r| == n && forall i :: 0 <= i < n ==> r[i] == Null
  {
    seq(n, i => Null)
  }

  /** pd.concat([df, pd.DataFrame([new_headers])], axis=1): the new cells go to the right of the first row;
      the other rows are padded with empty cells. */
  function AppendHeaderRow(rows: seq<seq<Value>>, extended: seq<Value>): (r: seq<seq<Value>>)
    ensures |r| == |rows|
    ensures forall i :: 0 <= i < |rows| ==> |r[i]| >= |rows[i]| && r[i][..|rows[i]|] == rows[i]
  {
    seq(|rows|, i requires 0 <= i < |rows| => rows[i] + if i == 0 then extended else Nulls(|extended|))
  }

  /** What add_additional_headers builds for one sheet, or the IndexError of iloc[0] on a sheet with no row. */
  function ModifySheet(sheet: RawSheet): Result<(RawSheet, seq<Value>), ExcelError>
  {
    if |sheet.rows| == 0 then Err(IndexError(sheet.name))
    else
      var headers := ExtractHeaders(sheet.rows[0], sheet.name);
      Ok((RawSheet(sheet.name, AppendHeaderRow(sheet.rows, ExtendedHeaders(headers))), headers))
  }

  /** A modified sheet keeps its name and rows; its first row ends with the extended headers and every other
      row gains as many empty cells. */
  lemma ModifySheetShape(sheet: RawSheet)
    requires ModifySheet(sheet).Ok?
    ensures var (modified, headers) := ModifySheet(sheet).value;
            var extended := ExtendedHeaders(headers);
            modified.name == sheet.name && |modified.rows| == |sheet.rows| &&
            modified.rows[0] == sheet.rows[0] + extended && |extended| == |headers| + 6 &&
            forall i :: 0 < i < |sheet.rows| ==> modified.rows[i] == sheet.rows[i] + Nulls(|headers| + 6)
  {
    ExtendedHeadersShape(ExtractHeaders(sheet.rows[0], sheet.name));
  }

  /** The loop of add_additional_headers over the sheets, filling modified_df and headers_dict in sheet order. */
  method AddAdditionalHeaders(sheets: seq<RawSheet>) returns (result: Result<(seq<RawSheet>, seq<seq<Value>>), ExcelError>)
    ensures result.Err? <==> exists i :: 0 <= i < |sheets| && |sheets[i].rows| == 0
    ensures result.Err? ==> exists i :: 0 <= i < |sheets| && result.error == IndexError(sheets[i].name) &&
                                        |sheets[i].rows| == 0 && forall j :: 0 <= j < i ==> |sheets[j].rows| > 0
    ensures result.Ok? ==> |result.value.0| == |sheets| && |result.value.1| == |sheets| &&
                           forall i :: 0 <= i < |sheets| ==> ModifySheet(sheets[i]) == Ok((result.value.0[i], result.value.1[i]))
  {
    var modified: seq<RawSheet> := [];
    var headersBySheet: seq<seq<Value>> := [];
    var i := 0;
    while i < |sheets|
      invariant 0 <= i <= |sheets|
      invariant |modified| == i && |headersBySheet| == i
      invariant forall j :: 0 <= j < i ==> |sheets[j].rows| > 0
      invariant forall j :: 0 <= j < i ==> ModifySheet(sheets[j]) == Ok((modified[j], headersBySheet[j]))
    {
      var sheet := sheets[i];
      if |sheet.rows| == 0 {
        return Err(IndexError(sheet.name));
      }
      var headers := ExtractHeaders(sheet.rows[0], sheet.name);
      var extended := ExtendedHeaders(headers);
      modified := modified + [RawSheet(sheet.name, AppendHeaderRow(sheet.rows, extended))];
      headersBySheet := headersBySheet + [headers];
      i := i + 1;
    }
    result := Ok((modified, headersBySheet));
  }
}
