/**
  bin/schema_from_file.py: turning the columns pyarrow inferred from a sample
  file into a new entry of the schema document's "paths" list.
 */
module SchemaFromFile {
  import opened Wrappers
  import opened RuleModel
  import opened RuleProperties

  /** A column of the sample file as pyarrow inferred it: name, `str(type)`, nullability. */
  datatype InferredColumn = InferredColumn(name: string, typeName: string, nullable: bool)

  /** The command-line arguments that go into the new entry. */
  datatype Arguments = Arguments(delimiter: string, primaryKey: string, pattern: string)

  /** The schema document: its "paths" list. */
  datatype SchemaDocument = SchemaDocument(paths: seq<PathEntry>)

  /** The field item written for one column. */
  function FieldItem(c: InferredColumn, primaryKey: string): FieldSpec
  {
    FieldSpec(c.name, c.typeName, if c.name == primaryKey then false else c.nullable)
  }

  /** The "fields" list: one item per column, in column order. */
  function FieldItems(columns: seq<InferredColumn>, primaryKey: string): seq<FieldSpec>
  {
    seq(|columns|, i requires 0 <= i < |columns| => FieldItem(columns[i], primaryKey))
  }

  /** The entry appended to "paths". */
  function NewEntry(columns: seq<InferredColumn>, args: Arguments): PathEntry
  {
    PathEntry(args.pattern, args.delimiter, args.primaryKey, FieldItems(columns, args.primaryKey))
  }

  /** The document written out: the loaded one (or an empty one) with the new entry appended. */
  function Output(columns: seq<InferredColumn>, args: Arguments, existing: Option<SchemaDocument>)
    : SchemaDocument
  {
    var root := if existing.Some? then existing.value else SchemaDocument([]);
    SchemaDocument(root.paths + [NewEntry(columns, args)])
  }

  /** The loop over `df.schema` that builds the "fields" list. */
  method BuildFields(columns: seq<InferredColumn>, primaryKey: string) returns (fields: seq<FieldSpec>)
    ensures fields == FieldItems(columns, primaryKey)
  {
    fields := [];
    var i := 0;
    while i < |columns|
      invariant 0 <= i <= |columns|
      invariant fields == FieldItems(columns[..i], primaryKey)
    {
      var column := columns[i];
      var item := FieldSpec(column.name, column.typeName, column.nullable);
      // The primary-key column is never nullable.
      if column.name == primaryKey {
        item := item.(nullable := false);
      }
      assert FieldItems(columns[..i + 1], primaryKey) == FieldItems(columns[..i], primaryKey) + [item];
      fields := fields + [item];
      i := i + 1;
    }
    assert columns[..i] == columns;
  }

  /** main, after parsing: build the fields, start from the existing document or {"paths": []}, append. */
  method AddSchema(columns: seq<InferredColumn>, args: Arguments, existing: Option<SchemaDocument>)
    returns (root: SchemaDocument)
    ensures root == Output(columns, args, existing)
  {
    var fields := BuildFields(columns, args.primaryKey);
    root := SchemaDocument([]);
    if existing.Some? {
      root := existing.value;
    }
    var entry := PathEntry(args.pattern, args.delimiter, args.primaryKey, fields);
    root := root.(paths := root.paths + [entry]);
  }

  // ---------------------------------------------------------------------
  // Properties
  // ---------------------------------------------------------------------

  /**
    One item per column, in column order, with the column's name and type string;
    the primary-key column is not nullable and every other column keeps its nullability.
   */
  lemma FieldItemsPerColumn(columns: seq<InferredColumn>, primaryKey: string)
    ensures var fields := FieldItems(columns, primaryKey);
      && |fields| == |columns|
      && forall i :: 0 <= i < |columns| ==>
           && fields[i].name == columns[i].name
           && fields[i].typeName == columns[i].typeName
           && (fields[i].nullable <==> columns[i].nullable && columns[i].name != primaryKey)
  {
  }

  /**
    The new entry carries the command-line delimiter, primary key and pattern,
    and is the last of "paths"; the entries before it are the existing ones, unchanged.
   */
  lemma OutputAppends(columns: seq<InferredColumn>, args: Arguments, existing: Option<SchemaDocument>)
    ensures var before := if existing.Some? then existing.value.paths else [];
      var paths := Output(columns, args, existing).paths;
      && |paths| == |before| + 1
      && paths[..|before|] == before
      && paths[|before|].delimiter == args.delimiter
      && paths[|before|].primaryKey == args.primaryKey
      && paths[|before|].pattern == args.pattern
      && paths[|before|].fields == FieldItems(columns, args.primaryKey)
  {
    var before := if existing.Some? then existing.value.paths else [];
    assert (before + [NewEntry(columns, args)])[..|before|] == before;
  }

  /** Without an existing output file the document has exactly the new entry. */
  lemma FreshDocument(columns: seq<InferredColumn>, args: Arguments)
    ensures Output(columns, args, None).paths == [NewEntry(columns, args)]
  {
  }

  /**
    Appending never changes which existing entry get_schema selects for a key;
    the new entry is chosen only for keys no existing pattern matches.
   */
  lemma {:induction false} AppendKeepsFirstMatch(paths: seq<PathEntry>, entry: PathEntry, key: string,
                                                 matches: Matcher)
    ensures FirstMatch(paths + [entry], key, matches)
            == if FirstMatch(paths, key, matches).Some? then FirstMatch(paths, key, matches)
               else if matches(entry.pattern, key) then Some(|paths|) else None
  {
    if paths != [] {
      assert (paths + [entry])[1..] == paths[1..] + [entry];
      AppendKeepsFirstMatch(paths[1..], entry, key, matches);
    }
  }

  /** A selected entry of the output document is the existing entry it was before, or the new one. */
  lemma OutputSelection(columns: seq<InferredColumn>, args: Arguments, existing: Option<SchemaDocument>,
                        key: string, matches: Matcher)
    requires existing.Some?
    ensures var m := FirstMatch(Output(columns, args, existing).paths, key, matches);
      var m0 := FirstMatch(existing.value.paths, key, matches);
      m == if m0.Some? then m0 else if matches(args.pattern, key) then Some(|existing.value.paths|) else None
  {
    AppendKeepsFirstMatch(existing.value.paths, NewEntry(columns, args), key, matches);
  }

  /** The sample's columns are the cells of its header line at delimiter `d`, in order. */
  predicate HeaderCells(line: string, d: char, columns: seq<InferredColumn>)
  {
    var cells := Split(line, d);
    |cells| == |columns| && forall i :: 0 <= i < |columns| ==> columns[i].name == cells[i]
  }

  /** The names of the new entry's schema are the sample's column names. */
  lemma SchemaNamesAreColumns(columns: seq<InferredColumn>, args: Arguments)
    ensures var schema := SchemaOf(NewEntry(columns, args));
      |schema| == |columns| && forall j :: 0 <= j < |schema| ==> schema[j].name == columns[j].name
  {
  }

  /**
    A header line with the separator in it splits into a first cell shorter
    than the line.
   */
  lemma FirstCellShorter(line: string, sep: char)
    requires sep in line
    ensures |Split(line, sep)[0]| < |line|
  {
    var parts := Split(line, sep);
    SplitJoin(line, sep);
    assert Join(parts, sep) == parts[0] + [sep] + Join(parts[1..], sep);
  }

  /** A line without the separator is one cell: the line itself. */
  lemma SingleCell(line: string, sep: char)
    requires sep !in line
    ensures Split(line, sep) == [line]
  {
    SplitJoin(line, sep);
  }

  /**
    A comma-delimited sample passes scan_file's first pass against the entry
    made from it: pyarrow read the sample's header line (unquoted cells) at
    the declared delimiter, and the first pass reads it at the default comma,
    which is the same delimiter.
   */
  lemma SampleHeaderInOrder(line: string, columns: seq<InferredColumn>, args: Arguments)
    requires args.delimiter == ","
    requires HeaderCells(line, args.delimiter[0], columns)
    ensures ColumnOrderFrom(Split(line, ','), SchemaOf(NewEntry(columns, args)), 0) == None
  {
    SchemaNamesAreColumns(columns, args);
  }

  /**
    As written, a sample with two or more columns at a delimiter other than
    the comma always fails scan_file with a column-order error, whatever the
    second pass would find: the first pass, at the default comma, reads the
    whole header line as one column name, which is no field's name.
   */
  lemma NonCommaSampleFailsScan(line: string, columns: seq<InferredColumn>, args: Arguments,
                                reparse: (string, seq<ArrowField>) -> Attempt<Reparsed>)
    requires |args.delimiter| == 1 && args.delimiter[0] != ',' && ',' !in line
    requires HeaderCells(line, args.delimiter[0], columns)
    requires |columns| > 1
    ensures ScanResult(SchemaOf(NewEntry(columns, args)), args.delimiter, args.primaryKey,
                       StoredFile(Done(Split(line, ',')), reparse))
            == Some(ColumnOrder(OutOfOrderMessage(line)))
  {
    var d := args.delimiter[0];
    SingleCell(line, ',');
    FirstCellShorter(line, d);
    SchemaNamesAreColumns(columns, args);
    assert SchemaOf(NewEntry(columns, args))[0].name == Split(line, d)[0];
  }

  /**
    The pipe-delimited sample with header line "id|val", as written: the
    first pass reads one column, "id|val", and the entry made from the
    sample's columns id and val rejects it.
   */
  lemma PipeSampleRejected(reparse: (string, seq<ArrowField>) -> Attempt<Reparsed>)
    ensures var columns := [InferredColumn("id", "string", true), InferredColumn("val", "int64", true)];
      var args := Arguments("|", "id", "uploads/.*");
      ScanResult(SchemaOf(NewEntry(columns, args)), "|", "id", StoredFile(Done(["id|val"]), reparse))
      == Some(ColumnOrder("column id|val is out of order"))
  {
    var columns := [InferredColumn("id", "string", true), InferredColumn("val", "int64", true)];
    var args := Arguments("|", "id", "uploads/.*");
    SchemaNamesAreColumns(columns, args);
    var schema := SchemaOf(NewEntry(columns, args));
    assert schema[0].name == "id" != "id|val";
    assert ColumnOrderFrom(["id|val"], schema, 0) == Some(ColumnOrder(OutOfOrderMessage("id|val")));
    assert OutOfOrderMessage("id|val") == "column id|val is out of order";
  }

  /**
    As written, a file whose header line has no comma (a ";"-delimited file,
    say) fails the first pass against any entry whose first field is not that
    whole line, whatever delimiter the entry declares and whatever the second
    pass would find: the delimiter message never comes.
   */
  lemma CommaFreeHeaderFailsScan(line: string, entry: PathEntry,
                                 reparse: (string, seq<ArrowField>) -> Attempt<Reparsed>)
    requires ',' !in line
    requires |entry.fields| >= 1 && entry.fields[0].name != line
    ensures ScanResult(SchemaOf(entry), entry.delimiter, entry.primaryKey, StoredFile(Done(Split(line, ',')), reparse))
            == Some(ColumnOrder(OutOfOrderMessage(line)))
  {
    SingleCell(line, ',');
  }

  /**
    With the corrected head, every sample passes against the entry made from
    it, whatever its one-character delimiter.
   */
  lemma SampleHeaderInOrderAnyDelimiter(line: string, columns: seq<InferredColumn>, args: Arguments)
    requires |args.delimiter| == 1
    requires HeaderCells(line, args.delimiter[0], columns)
    ensures CorrectedScanHead(line, NewEntry(columns, args)) == None
  {
    SchemaNamesAreColumns(columns, args);
  }

  /**
    With the corrected head, a file whose header line lacks the entry's
    delimiter gets the delimiter message when the entry has two or more
    fields: a comma file under a "|" entry, or a ";" file under a "," entry.
   */
  lemma MisdelimitedFileGetsDelimiterMessage(line: string, entry: PathEntry)
    requires |entry.delimiter| == 1 && entry.delimiter[0] !in line
    requires |entry.fields| > 1
    ensures CorrectedScanHead(line, entry) == Some(WrongDelimiter)
  {
  }
}
