/**
  Value-level model of csv_validator/rules.py: the data the rules work on,
  the exception taxonomy, and one specification function per operation.
  The imperative classes in module Rules are proved against these functions.
 */
module RuleModel {
  import opened Wrappers

  // ---------------------------------------------------------------------
  // Rule status and the report row
  // ---------------------------------------------------------------------

  /** The four status constants a Rule moves through. */
  datatype Status = NotRun | Started | Success | Failed

  /** The string a status is written as in a report row. */
  function StatusName(s: Status): (r: string)
    ensures r == "FAILED" <==> s == Failed
    ensures r == "SUCCESS" <==> s == Success
  {
    match s
    case NotRun => "NOT_RUN"
    case Started => "STARTED"
    case Success => "SUCCESS"
    case Failed => "FAILED"
  }

  /** One (status, name, description, output) tuple of the suite's report. */
  datatype ResultRow = ResultRow(status: string, name: string, description: string, output: string)

  // ---------------------------------------------------------------------
  // Events, schema documents and resolved schemas
  // ---------------------------------------------------------------------

  /** One event record, reduced to its bucket name and object key. */
  datatype Record = Record(bucket: string, key: string)

  /** One item of a path entry's "fields" list in the schema document. */
  datatype FieldSpec = FieldSpec(name: string, typeName: string, nullable: bool)

  /** One element of the schema document's "paths" list. */
  datatype PathEntry = PathEntry(pattern: string, delimiter: string, primaryKey: string, fields: seq<FieldSpec>)

  /** A pyarrow data type, as far as the rules tell types apart: utf8 or anything else. */
  datatype DataType = Utf8 | Named(name: string)

  /** A pyarrow field, built from a FieldSpec by `pyarrow.field(name, type, nullable)`. */
  datatype ArrowField = ArrowField(name: string, dataType: DataType, nullable: bool)

  /** ASCII lower-casing of one character. */
  function LowerChar(c: char): char
  {
    if 'A' <= c <= 'Z' then (c as int + 32) as char else c
  }

  /** `s.lower()`, over the letters the type aliases are spelt with. */
  function Lower(s: string): (r: string)
    ensures |r| == |s|
    ensures forall i :: 0 <= i < |s| ==> r[i] == LowerChar(s[i])
  {
    seq(|s|, i requires 0 <= i < |s| => LowerChar(s[i]))
  }

  /** The aliases pyarrow resolves to its utf8 type. */
  const Utf8Aliases: set<string> := {"string", "str", "utf8"}

  /**
    pyarrow lower-cases a type name before looking it up, so "STRING",
    "Str" or "UTF8" resolve to utf8 just as "string", "str" and "utf8" do.
   */
  function ResolveType(typeName: string): (t: DataType)
    ensures t == Utf8 <==> Lower(typeName) in Utf8Aliases
    ensures t != Utf8 ==> t == Named(typeName)
  {
    if Lower(typeName) in Utf8Aliases then Utf8 else Named(typeName)
  }

  function ToArrowField(f: FieldSpec): ArrowField
  {
    ArrowField(f.name, ResolveType(f.typeName), f.nullable)
  }

  /** The pyarrow schema get_schema builds from a path entry: its fields, in declared order. */
  function SchemaOf(entry: PathEntry): (schema: seq<ArrowField>)
    ensures |schema| == |entry.fields|
    ensures forall i :: 0 <= i < |schema| ==> schema[i] == ToArrowField(entry.fields[i])
  {
    seq(|entry.fields|, i requires 0 <= i < |entry.fields| => ToArrowField(entry.fields[i]))
  }

  // ---------------------------------------------------------------------
  // Exceptions and the messages fail() is given for them
  // ---------------------------------------------------------------------

  /** An exception raised by pyarrow, S3 or the config loader. */
  datatype Raised = ArrowInvalid(message: string) | OtherError(message: string)

  /** Everything the body of ValidateSchema.validate's try block can raise. */
  datatype ScanError =
    | NoMatchingSchema
    | WrongDelimiter
    | ColumnOrder(message: string)
    | EmptyPrimaryKey
    | Library(raised: Raised)

  /** The IndexError of `schema[index]` past the schema's last field (placeholder text). */
  const IndexOutOfBounds: Raised := OtherError("index out of bounds")

  /** The KeyError of a field or column lookup by a name that is not unique (placeholder text). */
  function KeyNotFound(name: string): Raised
  {
    OtherError(name)
  }

  function OutOfOrderMessage(column: string): string
  {
    "column " + column + " is out of order"
  }

  /** The message ValidateSchema.validate passes to fail() for each exception kind. */
  function FailMessage(e: ScanError, key: string): (m: string)
    ensures e.NoMatchingSchema? ==> m == "No schema matches key: " + key
    ensures e.WrongDelimiter? ==> m == "Delimiter of the file is incorrect"
    ensures e.EmptyPrimaryKey? ==> m == "Primary key column has a missing value"
    ensures e.ColumnOrder? ==> m == e.message
    ensures e.Library? && e.raised.ArrowInvalid? ==> m == e.raised.message
    ensures e.Library? && e.raised.OtherError? ==> m == "Unknown error: " + e.raised.message
  {
    match e
    case Library(ArrowInvalid(m)) => m
    case NoMatchingSchema => "No schema matches key: " + key
    case WrongDelimiter => "Delimiter of the file is incorrect"
    case ColumnOrder(m) => m
    case EmptyPrimaryKey => "Primary key column has a missing value"
    case Library(OtherError(m)) => "Unknown error: " + m
  }

  // ---------------------------------------------------------------------
  // FileFormatValidator: the extension test
  // ---------------------------------------------------------------------

  /** Python's `s.split(sep)`: the pieces between separators, always at least one. */
  function Split(s: string, sep: char): (parts: seq<string>)
    ensures |parts| >= 1
    ensures |parts| == 1 <==> sep !in s
  {
    if s == [] then [[]]
    else
      var rest := Split(s[1..], sep);
      if s[0] == sep then [[]] + rest else [[s[0]] + rest[0]] + rest[1..]
  }

  /** Python's `sep.join(parts)`. */
  function Join(parts: seq<string>, sep: char): string
    requires |parts| >= 1
  {
    if |parts| == 1 then parts[0] else parts[0] + [sep] + Join(parts[1..], sep)
  }

  function Last<T>(s: seq<T>): T
    requires |s| >= 1
  {
    s[|s| - 1]
  }

  /** `key.split(".")[-1] == "csv"`. */
  predicate HasCsvExtension(key: string)
  {
    Last(Split(key, '.')) == "csv"
  }

  function FormatMessage(key: string): string
  {
    key + " does not match pattern of *.csv"
  }

  /** The output FileFormatValidator fails with: that of the first record whose key is not *.csv. */
  function FileFormatFailure(records: seq<Record>): (r: Option<string>)
    ensures r.None? <==> forall i :: 0 <= i < |records| ==> HasCsvExtension(records[i].key)
  {
    if records == [] then None
    else if !HasCsvExtension(records[0].key) then Some(FormatMessage(records[0].key))
    else FileFormatFailure(records[1..])
  }

  // ---------------------------------------------------------------------
  // ValidateSchema.get_schema: first matching path entry
  // ---------------------------------------------------------------------

  /** `re.match(pattern, key)` succeeds: the regular-expression engine is a parameter. */
  type Matcher = (string, string) -> bool

  /** The index of the first path entry whose pattern matches the key. */
  function FirstMatch(paths: seq<PathEntry>, key: string, matches: Matcher): (r: Option<nat>)
    ensures r.Some? ==> r.value < |paths| && matches(paths[r.value].pattern, key)
    ensures r.Some? ==> forall j :: 0 <= j < r.value ==> !matches(paths[j].pattern, key)
    ensures r.None? <==> forall j :: 0 <= j < |paths| ==> !matches(paths[j].pattern, key)
  {
    if paths == [] then None
    else if matches(paths[0].pattern, key) then Some(0)
    else
      match FirstMatch(paths[1..], key, matches)
      case None => None
      case Some(i) => Some(i + 1)
  }

  /** The rule's delimiter, pattern and primary_key fields. */
  datatype Selection = Selection(delimiter: Option<string>, pattern: Option<string>, primaryKey: Option<string>)

  /** What get_schema stores when it selects an entry. */
  function Select(entry: PathEntry): Selection
  {
    Selection(Some(entry.delimiter), Some(entry.pattern), Some(entry.primaryKey))
  }

  // ---------------------------------------------------------------------
  // ValidateSchema.scan_file: the file as the two reader passes see it
  // ---------------------------------------------------------------------

  /** Either a value or the exception that was raised instead. */
  datatype Attempt<+T> = Done(value: T) | Threw(error: Raised)

  /** One record batch: each column's values as text, or the error raised while reading it. */
  datatype Batch = Rows(columns: map<string, seq<Option<string>>>) | BadBatch(error: Raised)

  /** The second pass: the number of columns found and the batches that follow. */
  datatype Reparsed = Reparsed(columnCount: nat, batches: seq<Batch>)

  /**
    A stored object: its column names under the default parse options (first pass),
    and what a re-parse with a given delimiter and column types yields (second pass).
   */
  datatype StoredFile = StoredFile(
    header: Attempt<seq<string>>,
    reparse: (string, seq<ArrowField>) -> Attempt<Reparsed>)

  type FileStore = (string, string) -> StoredFile

  /** The fields of a schema that carry a given name, in order. */
  function FieldsNamed(schema: seq<ArrowField>, name: string): (r: seq<ArrowField>)
    ensures forall f :: f in r ==> f in schema && f.name == name
    ensures forall i :: 0 <= i < |schema| && schema[i].name == name ==> schema[i] in r
  {
    if schema == [] then []
    else if schema[0].name == name then [schema[0]] + FieldsNamed(schema[1..], name)
    else FieldsNamed(schema[1..], name)
  }

  /** Field `k` is the one field of the schema that carries the name. */
  predicate OnlyAt(schema: seq<ArrowField>, name: string, k: int)
  {
    && 0 <= k < |schema|
    && schema[k].name == name
    && forall j :: 0 <= j < |schema| && j != k ==> schema[j].name != name
  }

  /** Exactly one field carries the name exactly when FieldsNamed finds one field, and that is it. */
  lemma {:induction false} FieldsNamedOne(schema: seq<ArrowField>, name: string)
    ensures |FieldsNamed(schema, name)| == 1 <==> exists k :: OnlyAt(schema, name, k)
    ensures forall k :: OnlyAt(schema, name, k) ==> FieldsNamed(schema, name) == [schema[k]]
  {
    if schema != [] {
      var tail := schema[1..];
      FieldsNamedOne(tail, name);
      if schema[0].name == name {
        if |FieldsNamed(tail, name)| != 0 {
          var f := FieldsNamed(tail, name)[0];
          var j :| 0 <= j < |tail| && tail[j] == f;
          assert !OnlyAt(schema, name, 0) && schema[j + 1].name == name;
        } else {
          assert OnlyAt(schema, name, 0);
        }
      } else {
        forall k | OnlyAt(schema, name, k)
          ensures OnlyAt(tail, name, k - 1)
        {
        }
        if |FieldsNamed(tail, name)| == 1 {
          var k :| OnlyAt(tail, name, k);
          assert OnlyAt(schema, name, k + 1);
        }
      }
    }
  }

  /** `schema.field(name).type`: pyarrow finds a field only when its name is unique. */
  function FieldType(schema: seq<ArrowField>, name: string): (r: Attempt<DataType>)
    ensures r.Done? <==> exists k :: OnlyAt(schema, name, k)
    ensures forall k :: OnlyAt(schema, name, k) ==> r == Done(schema[k].dataType)
    ensures r.Threw? ==> r.error == KeyNotFound(name)
  {
    FieldsNamedOne(schema, name);
    var named := FieldsNamed(schema, name);
    if |named| == 1 then Done(named[0].dataType) else Threw(KeyNotFound(name))
  }

  /** The positional header check, from column `i` on. */
  function ColumnOrderFrom(names: seq<string>, schema: seq<ArrowField>, i: nat): (r: Option<ScanError>)
    requires i <= |names| && i <= |schema|
    decreases |names| - i
    ensures r.None? <==> |names| <= |schema| && forall j :: i <= j < |names| ==> names[j] == schema[j].name
  {
    if i == |names| then None
    else if i == |schema| then Some(Library(IndexOutOfBounds))
    else if names[i] != schema[i].name then Some(ColumnOrder(OutOfOrderMessage(names[i])))
    else ColumnOrderFrom(names, schema, i + 1)
  }

  /**
    The head of scan_file with both delimiter defects removed: the header is
    read at the entry's own one-character delimiter, as the second pass reads
    the file, and the one-column test runs before the header is compared, so
    a file read as one column still gets the delimiter message. The header
    line's cells are unquoted; the re-parse's column count is their number.
   */
  function CorrectedScanHead(line: string, entry: PathEntry): (r: Option<ScanError>)
    requires |entry.delimiter| == 1
  {
    var header := Split(line, entry.delimiter[0]);
    if |entry.fields| > 1 && |header| == 1 then Some(WrongDelimiter)
    else ColumnOrderFrom(header, SchemaOf(entry), 0)
  }

  /** The batch loop of scan_file, from batch `i` on. */
  function ScanBatchesFrom(batches: seq<Batch>, schema: seq<ArrowField>, primaryKey: string, i: nat): (r: Option<ScanError>)
    requires i <= |batches|
    decreases |batches| - i
    ensures r.Some? ==> r.value.EmptyPrimaryKey? || r.value.Library?
  {
    if i == |batches| then None
    else
      match batches[i]
      case BadBatch(e) => Some(Library(e))
      case Rows(columns) =>
        match FieldType(schema, primaryKey)
        case Threw(e) => Some(Library(e))
        case Done(t) =>
          if t != Utf8 then ScanBatchesFrom(batches, schema, primaryKey, i + 1)
          else if primaryKey !in columns then Some(Library(KeyNotFound(primaryKey)))
          else if Some("") in columns[primaryKey] then Some(EmptyPrimaryKey)
          else ScanBatchesFrom(batches, schema, primaryKey, i + 1)
  }

  /** What scan_file raises for a file, or None when every check passes. */
  function ScanResult(schema: seq<ArrowField>, delimiter: string, primaryKey: string, file: StoredFile): Option<ScanError>
  {
    match file.header
    case Threw(e) => Some(Library(e))
    case Done(names) =>
      var order := ColumnOrderFrom(names, schema, 0);
      if order.Some? then order
      else
        match file.reparse(delimiter, schema)
        case Threw(e) => Some(Library(e))
        case Done(pass) =>
          if |schema| > 1 && pass.columnCount == 1 then Some(WrongDelimiter)
          else ScanBatchesFrom(pass.batches, schema, primaryKey, 0)
  }

  // ---------------------------------------------------------------------
  // ValidateSchema.validate: records in order, first failure ends the rule
  // ---------------------------------------------------------------------

  /** Everything outside the rule that validate consults. */
  datatype Environment = Environment(
    config: Attempt<seq<PathEntry>>,   // what config_loader.load returns, or raises
    matches: Matcher,
    store: FileStore)

  /** What the try block raises for one record: get_schema, then scan_file. */
  function RecordError(paths: seq<PathEntry>, rec: Record, env: Environment): Option<ScanError>
  {
    match FirstMatch(paths, rec.key, env.matches)
    case None => Some(NoMatchingSchema)
    case Some(k) =>
      var entry := paths[k];
      ScanResult(SchemaOf(entry), entry.delimiter, entry.primaryKey, env.store(rec.bucket, rec.key))
  }

  /** The selection fields after get_schema has run for one record. */
  function SelectionAfter(paths: seq<PathEntry>, rec: Record, env: Environment, sel: Selection): Selection
  {
    match FirstMatch(paths, rec.key, env.matches)
    case None => sel
    case Some(k) => Select(paths[k])
  }

  datatype SchemaRun = SchemaRun(selection: Selection, failure: Option<string>)

  /** The record loop of ValidateSchema.validate: final selection and the fail() message, if any. */
  function CheckRecords(paths: seq<PathEntry>, records: seq<Record>, env: Environment, sel: Selection): SchemaRun
  {
    if records == [] then SchemaRun(sel, None)
    else
      var sel' := SelectionAfter(paths, records[0], env, sel);
      match RecordError(paths, records[0], env)
      case Some(e) => SchemaRun(sel', Some(FailMessage(e, records[0].key)))
      case None => CheckRecords(paths, records[1..], env, sel')
  }

  // ---------------------------------------------------------------------
  // Rule.validate for each kind of rule
  // ---------------------------------------------------------------------

  /** The concrete rules of the system. */
  datatype RuleKind = FileFormatCheck | SchemaCheck

  /** The fields of a rule that validate may change. */
  datatype RuleState = RuleState(status: Status, output: string, continueOnFail: bool,
                                 paths: Option<seq<PathEntry>>, selection: Selection)

  /** A rule's state after validate, and the exception that escaped it, if any. */
  datatype Validation = Validation(after: RuleState, raised: Option<Raised>)

  function RuleRun(kind: RuleKind, before: RuleState, records: seq<Record>, env: Environment): Validation
  {
    match kind
    case FileFormatCheck =>
      (match FileFormatFailure(records)
       case None => Validation(before.(status := Success), None)
       case Some(m) => Validation(before.(status := Failed, output := m), None))
    case SchemaCheck =>
      match env.config
      case Threw(e) => Validation(before.(status := Started), Some(e))
      case Done(paths) =>
        var run := CheckRecords(paths, records, env, before.selection);
        var s := before.(paths := Some(paths), selection := run.selection);
        match run.failure
        case None => Validation(s.(status := Success), None)
        case Some(m) => Validation(s.(status := Failed, output := m), None)
  }

  // ---------------------------------------------------------------------
  // ValidationSuite.validate
  // ---------------------------------------------------------------------

  /** One rule of the suite with what its validate call would do. */
  datatype Execution = Execution(name: string, description: string, run: Validation)

  function Row(x: Execution): ResultRow
  {
    ResultRow(StatusName(x.run.after.status), x.name, x.description, x.run.after.output)
  }

  /** The suite breaks after this rule. */
  predicate StopsSuite(x: Execution)
  {
    x.run.after.status == Failed && !x.run.after.continueOnFail
  }

  /** The loop does not go past this rule: it breaks, or the rule's exception escapes. */
  predicate Halts(x: Execution)
  {
    x.run.raised.Some? || StopsSuite(x)
  }

  /** The result list handed to notify, or the exception that escapes the suite before notify. */
  datatype SuiteResult = Notified(results: seq<ResultRow>) | Propagated(error: Raised)

  function SuiteRun(xs: seq<Execution>): SuiteResult
  {
    if xs == [] then Notified([])
    else if xs[0].run.raised.Some? then Propagated(xs[0].run.raised.value)
    else if StopsSuite(xs[0]) then Notified([Row(xs[0])])
    else
      match SuiteRun(xs[1..])
      case Notified(rest) => Notified([Row(xs[0])] + rest)
      case Propagated(e) => Propagated(e)
  }

  /** How many rules have their validate called. */
  function RunCount(xs: seq<Execution>): (n: nat)
    ensures n <= |xs|
  {
    if xs == [] then 0 else if Halts(xs[0]) then 1 else 1 + RunCount(xs[1..])
  }

  /** The rows of a sequence of executions, in order. */
  function Report(xs: seq<Execution>): (rows: seq<ResultRow>)
    ensures |rows| == |xs|
    ensures forall i :: 0 <= i < |xs| ==> rows[i] == Row(xs[i])
  {
    seq(|xs|, i requires 0 <= i < |xs| => Row(xs[i]))
  }
}
