/**
  The file-upload handler's pure part: the column list inferred from an
  uploaded file (the CSV header row, or the keys of the first element of a
  JSON array), chosen by the file name's extension, and the schema string
  that replaces the current schema afterwards.
*/
module Upload {
  import opened Wrappers
  import opened JsStrings

  /** The schema in force before any file is uploaded. */
  const NoFileSchema: string := "No file uploaded." + " User is asking general questions."

  /** What JSON.parse, Array.isArray and Object.keys make of a .json file.
      The JSON parser and the key order of objects belong to the JavaScript
      engine, so the outcome comes in as a value: a parse failure, an array
      whose first element has the given keys, or anything else (an empty
      array, an object, a scalar). */
  datatype JsonUpload = Unparsable | NonEmptyArray(firstKeys: seq<string>) | OtherValue

  /** The first line of text: everything before the first '\n'. */
  function FirstLine(text: string): (r: string)
    ensures '\n' !in r
    ensures |r| <= |text| && r == text[..|r|]
    ensures |r| == |text| || text[|r|] == '\n'
  {
    var lines := Split(text, '\n');
    JoinSplit(text, '\n');
    assert Join(lines, ['\n']) == text;
    SplitPiecesAvoidSeparator(text, '\n');
    lines[0]
  }

  /** The CSV branch: text.split('\n'), then the first line split on ','
      with every piece trimmed. The guard on the number of lines never
      fails, since split always yields at least one piece. */
  function CsvColumns(text: string): (r: seq<string>)
    ensures |r| >= 1 && forall i :: 0 <= i < |r| ==> IsTrimmed(r[i])
  {
    var lines := Split(text, '\n');
    if |lines| > 0 then TrimAll(Split(lines[0], ',')) else []
  }

  /** The CSV columns are the comma-separated fields of the first line,
      trimmed: one more than there are commas, so never none; each field
      trimmed and free of ','; and the untrimmed fields joined with ','
      give the first line back. */
  lemma CsvColumnsAreHeaderFields(text: string)
    ensures var cols := CsvColumns(text);
      cols == TrimAll(Split(FirstLine(text), ',')) &&
      |cols| == CountOf(FirstLine(text), ',') + 1 &&
      (forall i :: 0 <= i < |cols| ==> IsTrimmed(cols[i]) && ',' !in cols[i]) &&
      Join(Split(FirstLine(text), ','), [',']) == FirstLine(text)
  {
    var fields := Split(FirstLine(text), ',');
    var cols := CsvColumns(text);
    SplitPiecesAvoidSeparator(FirstLine(text), ',');
    SplitCount(FirstLine(text), ',');
    forall i | 0 <= i < |cols| ensures ',' !in cols[i] {
      TrimHasNoNewChar(fields[i], ',');
    }
    JoinSplit(FirstLine(text), ',');
  }

  /** Trimming only removes characters, so it cannot introduce c. */
  lemma TrimHasNoNewChar(s: string, c: char)
    requires c !in s
    ensures c !in Trim(s)
  {
    var r := Trim(s);
    var lo := LeadingSpaces(s);
    forall k | 0 <= k < |r| ensures r[k] != c {
      assert r[k] == s[lo + k];
    }
  }

  /** The header row "a,b,c" over one data row gives the columns a, b, c. */
  lemma CsvExample()
    ensures CsvColumns("a,b,c\n1,2,3") == ["a", "b", "c"]
  {
    ExampleLines();
    ExampleFields();
    ExampleTrim();
  }

  lemma ExampleLines()
    ensures Split("a,b,c\n1,2,3", '\n')[0] == "a,b,c"
  {
    assert "a,b,c\n1,2,3" == "a,b,c" + ['\n'] + "1,2,3";
    SplitAround("a,b,c", '\n', "1,2,3");
    SplitWithout("a,b,c", '\n');
  }

  lemma ExampleFields()
    ensures Split("a,b,c", ',') == ["a", "b", "c"]
  {
    assert "a,b,c" == "a" + [','] + ("b" + [','] + "c");
    SplitAround("a", ',', "b" + [','] + "c");
    SplitAround("b", ',', "c");
    SplitWithout("a", ',');
    SplitWithout("b", ',');
    SplitWithout("c", ',');
  }

  lemma ExampleTrim()
    ensures TrimAll(["a", "b", "c"]) == ["a", "b", "c"]
  {
    TrimTrimmed("a");
    TrimTrimmed("b");
    TrimTrimmed("c");
    assert ["a", "b", "c"][1..] == ["b", "c"];
    assert ["b", "c"][1..] == ["c"];
  }

  /** The columns of an uploaded file: by the CSV rules for a name ending in
      ".csv", from the first array element's keys for ".json", and none in
      every other case, including an unparsable or non-array JSON file. */
  function UploadColumns(name: string, text: string, json: JsonUpload): (r: seq<string>)
    ensures EndsWith(name, ".csv") ==> r == CsvColumns(text)
    ensures !EndsWith(name, ".csv") && EndsWith(name, ".json") ==>
      r == (if json.NonEmptyArray? then json.firstKeys else [])
    ensures !EndsWith(name, ".csv") && !EndsWith(name, ".json") ==> r == []
  {
    if EndsWith(name, ".csv") then CsvColumns(text)
    else if EndsWith(name, ".json") then
      match json
      case NonEmptyArray(keys) => keys
      case _ => []
    else []
  }

  /** The schema string stored after an upload: "Table: ", the file name,
      ", Columns: " and then the column list. */
  function Schema(name: string, columns: seq<string>): (r: string)
    ensures |r| >= 18 + |name| && r[..7] == "Table: " && r[7..7 + |name|] == name &&
      r[7 + |name|..18 + |name|] == ", Columns: "
  {
    "Table: " + name + ", Columns: " + Join(columns, ", ")
  }

  /** The column part of a schema, what follows "Columns: ". */
  function SchemaColumnText(name: string, columns: seq<string>): (r: string)
    ensures |r| <= |Schema(name, columns)|
  {
    Schema(name, columns)[|"Table: " + name + ", Columns: "|..]
  }

  /** The schema names the file after "Table: ", and its column part is the
      columns joined with ", ": empty when there are none. */
  lemma SchemaShape(name: string, columns: seq<string>)
    ensures var s := Schema(name, columns);
      |s| >= 18 + |name| && s[..7] == "Table: " && s[7..7 + |name|] == name &&
      s[7 + |name|..18 + |name|] == ", Columns: " &&
      SchemaColumnText(name, columns) == Join(columns, ", ")
    ensures |columns| == 0 ==> SchemaColumnText(name, columns) == ""
  {
    var s := Schema(name, columns);
    assert s == ("Table: " + name + ", Columns: ") + Join(columns, ", ");
  }

  /** An upload always replaces the schema in force before any upload:
      whatever the file and its columns, the new schema differs from it. */
  lemma UploadReplacesNoFileSchema(name: string, columns: seq<string>)
    ensures Schema(name, columns) != NoFileSchema
  {
    var s := Schema(name, columns);
    assert s[..7][0] == 'T';
    assert NoFileSchema[0] == 'N';
  }

  /** Reading the column part of a schema back (split on ',', trim each
      piece) recovers the columns, provided there is at least one and each
      is trimmed and free of ','. */
  lemma {:induction false} ColumnTextRoundTrip(columns: seq<string>)
    requires |columns| >= 1
    requires forall i :: 0 <= i < |columns| ==> IsTrimmed(columns[i]) && ',' !in columns[i]
    ensures TrimAll(Split(Join(columns, ", "), ',')) == columns
  {
    var first, rest := columns[0], columns[1..];
    assert IsTrimmed(first) && ',' !in first;
    if |columns| == 1 {
      SplitWithout(first, ',');
      TrimAllCons(first, []);
      TrimTrimmed(first);
    } else {
      assert forall i :: 0 <= i < |rest| ==> rest[i] == columns[i + 1];
      ColumnTextRoundTrip(rest);
      assert Join(columns, ", ") == first + ", " + Join(rest, ", ");
      ColumnThenRest(first, Join(rest, ", "));
      assert columns == [first] + rest;
    }
  }

  /** One column followed by ", " and more text reads back as that column
      followed by what the rest reads back as. */
  lemma ColumnThenRest(column: string, tail: string)
    requires IsTrimmed(column) && ',' !in column
    ensures TrimAll(Split(column + ", " + tail, ',')) == [column] + TrimAll(Split(tail, ','))
  {
    assert column + ", " + tail == column + [','] + ([' '] + tail);
    SplitAround(column, ',', [' '] + tail);
    SplitWithout(column, ',');
    TrimAllCons(column, Split([' '] + tail, ','));
    TrimTrimmed(column);
    SpaceAfterComma(tail);
  }

  /** Trimming a list with one more piece at the front. */
  lemma TrimAllCons(x: string, xs: seq<string>)
    ensures TrimAll([x] + xs) == [Trim(x)] + TrimAll(xs)
  {
    assert ([x] + xs)[1..] == xs;
  }

  /** The space that ", " puts after each comma is trimmed away again. */
  lemma SpaceAfterComma(tail: string)
    ensures TrimAll(Split([' '] + tail, ',')) == TrimAll(Split(tail, ','))
  {
    var pieces := Split(tail, ',');
    SplitCons(' ', tail, ',');
    assert pieces == [pieces[0]] + pieces[1..];
    TrimAllCons([' '] + pieces[0], pieces[1..]);
    TrimAllCons(pieces[0], pieces[1..]);
    TrimLeadingSpace(pieces[0]);
  }

  /** After a CSV upload, the schema's column part reads back as exactly the
      columns shown for the file. */
  lemma CsvSchemaRoundTrip(name: string, text: string)
    ensures TrimAll(Split(SchemaColumnText(name, CsvColumns(text)), ',')) == CsvColumns(text)
  {
    CsvColumnsAreHeaderFields(text);
    SchemaShape(name, CsvColumns(text));
    ColumnTextRoundTrip(CsvColumns(text));
  }
}
