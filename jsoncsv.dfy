/** `json_to_csv`: a SPARQL result document (`head.vars` naming the columns,
    `results.bindings` holding one dict per row) written out as CSV rows. The JSON
    text is taken already parsed; the CSV file is a list of rows. */
module JsonCsv {
  import opened Wrappers
  import opened Strings

  /** One cell of a binding, `{"type": ..., "value": ...}`; only `value` is read. */
  datatype Cell = Cell(value: Option<string>)

  /** One row of `results.bindings`: the columns it binds. */
  type Binding = map<string, Cell>

  datatype Head = Head(vars: Option<seq<string>>)
  datatype Results = Results(bindings: Option<seq<Binding>>)

  /** The parsed JSON document; every key the conversion reads may be missing. */
  datatype Doc = Doc(head: Option<Head>, results: Option<Results>)

  /** The text after the last '#', `value.split('#')[-1]`. */
  function Fragment(v: string): (f: string)
    ensures '#' !in f
  {
    var parts := Split(v, '#');
    JoinSplit(v, '#');
    assert parts[|parts| - 1] in parts;
    parts[|parts| - 1]
  }

  /** A value with a '#' is the text up to its last '#' followed by the fragment. */
  lemma FragmentIsLastPart(v: string)
    requires '#' in v
    ensures exists pre :: v == pre + "#" + Fragment(v)
  {
    SplitLast(v, '#');
  }

  /** The text written for column `col` of a binding: empty when the column or its
      `value` is missing, the fragment after the last '#' when there is one, and the
      value itself otherwise. */
  function CellText(b: Binding, col: string): (t: string)
    ensures '#' !in t
    ensures col !in b ==> t == ""
    ensures col in b && b[col].value.None? ==> t == ""
    ensures col in b && b[col].value.Some? && '#' !in b[col].value.value ==> t == b[col].value.value
    ensures col in b && b[col].value.Some? && '#' in b[col].value.value ==>
      exists pre :: b[col].value.value == pre + "#" + t
  {
    if col !in b then ""
    else
      var value := b[col].value.GetOr("");
      if '#' in value then
        FragmentIsLastPart(value);
        Fragment(value)
      else value
  }

  /** The inner loop over the columns, one cell per column in column order. */
  method RowData(b: Binding, columns: seq<string>) returns (row: seq<string>)
    ensures |row| == |columns|
    ensures forall i :: 0 <= i < |columns| ==> row[i] == CellText(b, columns[i])
  {
    row := [];
    for i := 0 to |columns|
      invariant |row| == i
      invariant forall k :: 0 <= k < i ==> row[k] == CellText(b, columns[k])
    {
      var col := columns[i];
      if col !in b {
        row := row + [""];
        continue;
      }
      var value := b[col].value.GetOr("");
      if '#' in value {
        value := Split(value, '#')[|Split(value, '#')| - 1];
      }
      row := row + [value];
    }
  }

  /** The written CSV file, one list of cells per `writer.writerow`. */
  class CsvFile {
    var rows: seq<seq<string>>

    /** Opening with mode 'w+' starts from an empty file. */
    constructor ()
      ensures rows == []
    {
      rows := [];
    }

    method WriteRow(row: seq<string>)
      modifies this
      ensures rows == old(rows) + [row]
    {
      rows := rows + [row];
    }
  }

  /** The arguments name exactly one source: a path or a file object. */
  function SourceError(inputPath: string, fileObject: Option<Doc>): (r: Option<PyError>)
    ensures r.Some? <==> (inputPath != "") == fileObject.Some?
    ensures inputPath != "" && fileObject.Some? ==>
      r == Some(Exception("Only provide either file object or file path"))
    ensures inputPath == "" && fileObject.None? ==>
      r == Some(Exception("Provide wither file object or file path of json file"))
  {
    if inputPath != "" && fileObject.Some? then Some(Exception("Only provide either file object or file path"))
    else if inputPath == "" && fileObject.None? then Some(Exception("Provide wither file object or file path of json file"))
    else None
  }

  /** `json_to_csv(csv_output_path, json_input_path, json_file_object)`. The file at
      `json_input_path` is passed in already parsed as `fileAtPath`. The header is
      `head.vars`, then one row per binding; a missing `head`, `vars`, `results` or
      `bindings` key raises KeyError before the file is opened. */
  method JsonToCsv(inputPath: string, fileObject: Option<Doc>, fileAtPath: Doc)
    returns (r: Result<CsvFile, PyError>)
    ensures SourceError(inputPath, fileObject).Some? ==> r == Failure(SourceError(inputPath, fileObject).value)
    ensures SourceError(inputPath, fileObject).None? ==>
      var data := if fileObject.Some? then fileObject.value else fileAtPath;
      && (r.Failure? <==> !HasTable(data))
      && (r.Failure? ==> r.error == KeyError)
      && (r.Success? ==> fresh(r.value) && r.value.rows == Table(data))
  {
    var err := SourceError(inputPath, fileObject);
    if err.Some? {
      return Failure(err.value);
    }
    var data := if fileObject.Some? then fileObject.value else fileAtPath;
    if data.head.None? || data.head.value.vars.None? {
      return Failure(KeyError);
    }
    var columns := data.head.value.vars.value;
    if data.results.None? || data.results.value.bindings.None? {
      return Failure(KeyError);
    }
    var bindings := data.results.value.bindings.value;
    var csvFile := new CsvFile();
    csvFile.WriteRow(columns);
    for k := 0 to |bindings|
      invariant csvFile.rows == [columns] + Rows(bindings[..k], columns)
    {
      var rowData := RowData(bindings[k], columns);
      assert rowData == RowOf(bindings[k], columns);
      assert bindings[..k + 1][..k] == bindings[..k];
      csvFile.WriteRow(rowData);
    }
    assert bindings[..|bindings|] == bindings;
    return Success(csvFile);
  }

  /** The document has the four keys the conversion reads. */
  predicate HasTable(d: Doc) {
    d.head.Some? && d.head.value.vars.Some? && d.results.Some? && d.results.value.bindings.Some?
  }

  /** One CSV row for a binding. */
  function RowOf(b: Binding, columns: seq<string>): (row: seq<string>)
    ensures |row| == |columns|
    ensures forall i :: 0 <= i < |columns| ==> row[i] == CellText(b, columns[i])
  {
    seq(|columns|, i requires 0 <= i < |columns| => CellText(b, columns[i]))
  }

  /** The rows for a list of bindings, in order. */
  function Rows(bs: seq<Binding>, columns: seq<string>): (rows: seq<seq<string>>)
    decreases |bs|
  {
    if bs == [] then [] else Rows(bs[..|bs| - 1], columns) + [RowOf(bs[|bs| - 1], columns)]
  }

  /** Row `k` of the output is the row of binding `k`. */
  lemma {:induction false} RowsAt(bs: seq<Binding>, columns: seq<string>)
    ensures |Rows(bs, columns)| == |bs|
    ensures forall k :: 0 <= k < |bs| ==> Rows(bs, columns)[k] == RowOf(bs[k], columns)
    decreases |bs|
  {
    if bs != [] {
      RowsAt(bs[..|bs| - 1], columns);
    }
  }

  /** The contents of the written file: the header, then one row per binding. */
  function Table(d: Doc): seq<seq<string>>
    requires HasTable(d)
  {
    [d.head.value.vars.value] + Rows(d.results.value.bindings.value, d.head.value.vars.value)
  }

  /** The file has one more row than there are bindings, the header first, and every
      row as many cells as there are columns. */
  lemma TableShape(d: Doc)
    requires HasTable(d)
    ensures var columns := d.head.value.vars.value;
      var bindings := d.results.value.bindings.value;
      && |Table(d)| == |bindings| + 1
      && Table(d)[0] == columns
      && (forall k :: 1 <= k <= |bindings| ==>
            |Table(d)[k]| == |columns| && Table(d)[k] == RowOf(bindings[k - 1], columns))
  {
    RowsAt(d.results.value.bindings.value, d.head.value.vars.value);
  }
}
