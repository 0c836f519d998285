# S3 CSV validator: a Dafny model

This project models the core of an AWS Lambda that validates CSV files
uploaded to S3. The Lambda receives an S3 event listing uploaded objects.
A `ValidationSuite` runs a list of rules over the event, collects one
`(status, name, description, output)` tuple per executed rule, stops after
the first rule that ends `FAILED` unless that rule allows the suite to
continue, and hands the list to a notifier once. The model covers:

- `csv_validator/rules.py`:
  - `Rule`: its constructor and `fail`.
  - `FileFormatValidator`: the `*.csv` extension test.
  - `ValidateSchema`: `validate`, `get_schema` and `scan_file`. These load
    the schema document, select the first path entry whose pattern matches
    the key, and check the file for column order, delimiter and empty
    primary keys.
  - The four exception classes, modelled as an outcome type.
- `csv_validator/notifications.py`: `CsvEmailNotifier.notify`, which sends
  a report only when some result has status `"FAILED"`, and
  `_results_to_csv_buffer`, which lays the report out as CSV rows.
- `bin/schema_from_file.py`: how the columns inferred from a sample file
  become a new entry appended to the schema document's `paths`.

The code changes state step by step, and the model does too. `Rules.Rule`
and `Rules.ValidationSuite` are classes whose methods update fields and
carry loop invariants. `Notifications.CsvBuffer` and
`Notifications.CsvEmailNotifier` are classes as well. Each method is proved
against a specification function of module `RuleModel`,
`Notifications` or `SchemaFromFile`. The properties of those functions are
proved as lemmas in `RuleProperties`, `Notifications` and `SchemaFromFile`.

Things outside the program become parameters:

- The S3 object becomes a `StoredFile`. It holds the column names the
  first, default parse finds, or the exception it raises. It also holds a
  function from (delimiter, column types) to the second parse: its column
  count and its record batches, or the exception it raises.
- `re.match` becomes a `Matcher` function.
- `config_loader.load` becomes an `Attempt`: the loaded `paths`, or the
  exception the load raises.
- An exception that escapes a method is returned as `raised`.
- The calls to `notify` are returned as a log, `notified`.
- The e-mails sent through SES are the notifier's `outbox`.

Three behaviours of the code are worth stating, because the model keeps
them as written:

- `self.config_loader.load(...)` (csv_validator/rules.py:141) runs outside
  the `try` block. A loader error therefore does not become an
  `"Unknown error: ..."` failure. It escapes `validate` and the suite, and
  `notify` is never called. `Rules.Rule.Validate` and
  `Rules.ValidationSuite.Validate` model exactly this.
- The notifier's report header has the four columns the code writes
  (csv_validator/notifications.py:53). One notifier test expects six.
- The first pass of `scan_file` (csv_validator/rules.py:174-179) opens the
  file with pyarrow's default parse options, so it reads the header at a
  comma whatever delimiter the path entry declares. `Rules.Rule.ScanFile`
  keeps this; "## Findings" below gives its consequence and a corrected
  check.

## Model

| member | source | states |
|---|---|---|
| RuleModel.StatusName | csv_validator/rules.py:9-12 | a status is written "FAILED" exactly when it is FAILED and "SUCCESS" exactly when it is SUCCESS, which is what the suite and the notifier compare against |
| RuleModel.ResolveType | csv_validator/rules.py:195 | a declared type counts as the string type exactly when its name, lower-cased as pyarrow does before the alias lookup, is one of "string", "str", "utf8"; any other name is kept as a non-string type |
| RuleModel.FailMessage | csv_validator/rules.py:149-166 | the fail() text for each exception kind: the ArrowInvalid message as is, "No schema matches key: <key>", "Delimiter of the file is incorrect", the column-order message as is, "Primary key column has a missing value", and "Unknown error: <message>" for any other exception |
| RuleModel.FieldsNamedOne | csv_validator/rules.py:195 | pyarrow's by-name lookup finds one field exactly when exactly one field carries the name, and then finds that field |
| RuleModel.FieldType | csv_validator/rules.py:195 | `schema.field(name).type` yields the type of field k exactly when k is the only field with that name; with no such field, or two or more, it raises the KeyError for the name |
| RuleProperties.ResolveTypeIgnoresCase | csv_validator/rules.py:195 | type names that differ only in letter case are alike as far as the string test goes |
| RuleProperties.UpperCaseAliases | csv_validator/rules.py:195 | "STRING", "Str" and "UTF8" are the string type; "large_string" is not |
| RuleModel.SchemaOf | csv_validator/rules.py:209-218 | the schema built from a path entry has one field per declared field, in declared order, with its name, type and nullability |
| RuleModel.FileFormatFailure | csv_validator/rules.py:118-125 | there is no failure message exactly when every record key passes the extension test |
| RuleModel.FirstMatch | csv_validator/rules.py:203-205 | the selected index matches the key and no earlier entry does; nothing is selected exactly when no entry matches |
| RuleModel.ColumnOrderFrom | csv_validator/rules.py:176-179 | the header check passes exactly when the file has no more columns than the schema and each file column has the name of the schema field at its position |
| RuleModel.ScanBatchesFrom | csv_validator/rules.py:192-199 | the batch loop can only fail with the empty-primary-key outcome or a library error |
| RuleProperties.SplitJoin | csv_validator/rules.py:121 | the split of a key loses nothing: joining the pieces with the separator gives back the key |
| RuleProperties.SplitLastSegment | csv_validator/rules.py:121 | `key.split(".")[-1]` is the longest dot-free suffix of the key: the whole key when it has no dot, otherwise the text after the last dot |
| RuleProperties.CsvExtensionIff | csv_validator/rules.py:121 | a key passes the extension test exactly when it is "csv" or ends in ".csv" |
| RuleProperties.FileFormatFailsAtFirstBadKey | csv_validator/rules.py:118-125 | the failure message is "<key> does not match pattern of *.csv" for the first offending key, whatever the later keys are |
| RuleProperties.FileFormatRuleSucceedsIff | csv_validator/rules.py:116-126 | FileFormatValidator ends SUCCESS exactly when every key is "csv" or ends in ".csv" (so an empty record list succeeds), and otherwise ends FAILED |
| RuleProperties.FirstMatchSelects | csv_validator/rules.py:203-205 | entry k is selected exactly when it matches and no earlier entry matches: first match wins, so entry order matters |
| RuleProperties.ColumnOrderFirstMismatch | csv_validator/rules.py:176-179 | the first positional mismatch yields "column <file column name> is out of order" |
| RuleProperties.ColumnOrderExtraColumn | csv_validator/rules.py:176-177 | a file with more columns than the schema, agreeing on the schema's columns, hits the IndexError, which validate reports as an unknown error |
| RuleProperties.ColumnOrderDetectsMismatch | csv_validator/rules.py:176-179 | any positional name difference between equally long headers is a column-order failure |
| RuleProperties.PermutedHeaderFails | csv_validator/rules.py:176-179 | a header with the schema's names in a different order fails the check: the check is positional |
| RuleProperties.WrongDelimiterIff | csv_validator/rules.py:186-189 | after a passing header, the wrong-delimiter outcome occurs exactly when the schema has more than one field and the re-parse finds one column, before any batch is read |
| RuleProperties.EmptyPrimaryKeyFound | csv_validator/rules.py:192-199 | with a string primary key, when the loop reaches batch k, an empty string in batch k's key column is reported as a missing primary key, provided every batch before k is readable, has the key column and holds no empty string in it |
| RuleProperties.NonStringKeyNotScanned | csv_validator/rules.py:195-199 | a primary key of another type is never scanned: only a batch that cannot be read fails the loop |
| RuleProperties.AmbiguousKeyRaises | csv_validator/rules.py:195-196 | a primary key naming no field, or two, makes the batch loop raise the KeyError at the batch it has reached, when that batch is readable, which validate reports as "Unknown error: <key>" |
| RuleProperties.NullKeysNotFlagged | csv_validator/rules.py:197-199 | null primary-key values are never reported as missing; only the empty string is |
| RuleProperties.RecordsPassIff | csv_validator/rules.py:142-167 | the record loop ends without a failure exactly when no record's schema lookup or scan raises |
| RuleProperties.RecordsFailAtFirst | csv_validator/rules.py:146-166 | the first failing record ends the loop with the message for its exception; later records are not consulted |
| RuleProperties.SchemaRuleSucceedsIff | csv_validator/rules.py:139-167 | ValidateSchema ends SUCCESS exactly when the configuration loads and every record passes; an exception escapes exactly when the load fails |
| RuleProperties.SuiteRunStopsAt | csv_validator/rules.py:89-95 | the suite stops at the first rule that fails hard or raises; the list notified holds exactly the rows of the rules up to and including it, and no later rule runs |
| RuleProperties.SuiteRunCompletes | csv_validator/rules.py:89-95 | when no rule fails hard or raises, every rule runs and the notified list has one row per rule, in rule order |
| RuleProperties.SuiteReportsPrefix | csv_validator/rules.py:89-95 | the notified list is the rows of a prefix of the rules; a list shorter than the rules ends with a rule that failed without continue_on_fail |
| Rules.Rule.constructor | csv_validator/rules.py:21-35 | a new rule has status NOT_RUN, empty output, continue_on_fail false and no selected schema |
| Rules.Rule.Fail | csv_validator/rules.py:37-45 | fail sets status FAILED and the given output and changes no other field |
| Rules.Rule.Validate | csv_validator/rules.py:47-57 | validate dispatches to the concrete rule: the new state and the escaping exception are those the rule's specification gives |
| Rules.Rule.FileFormatValidate | csv_validator/rules.py:116-126 | the rule ends SUCCESS with unchanged output when every key passes; otherwise it ends FAILED with the first offending key's message |
| Rules.Rule.SchemaValidate | csv_validator/rules.py:139-167 | validate stores the loaded paths and processes records in order; it ends SUCCESS, or FAILED with the first failing record's message, or lets the loader's exception escape |
| Rules.Rule.GetSchema | csv_validator/rules.py:202-220 | it returns the first matching entry's fields in order and stores its delimiter, pattern and primary key; without a match it reports no schema and leaves those fields unchanged |
| Rules.Rule.ScanFile | csv_validator/rules.py:169-199 | the outcome of scanning a file is the scan specification's: column order first, then the re-parse, the delimiter heuristic and the batch loop |
| Rules.ValidationSuite.constructor | csv_validator/rules.py:65-77 | the suite keeps the given rules |
| Rules.ValidationSuite.Validate | csv_validator/rules.py:79-95 | notify is called once with the suite's result list, unless a rule's exception escapes; the rules that ran hold their post-validate state and the rules after the stopping point are untouched |
| Rules.ValidationSuite.RunRules | csv_validator/rules.py:89-94 | the loop runs rules until the first one that fails hard or raises, appending one row per executed rule |
| Rules.ValidationSuite.RunRule | csv_validator/rules.py:91-93 | one iteration validates rule i, reads its row and the break condition, and changes no other rule |
| Notifications.CsvBuffer.WriteRow | csv_validator/notifications.py:56 | writing a row appends it to the buffer |
| Notifications.ResultsToCsvBuffer | csv_validator/notifications.py:47-58 | the buffer holds the header, then one row per result, in input order |
| Notifications.CsvEmailNotifier.constructor | csv_validator/notifications.py:42-45 | a new notifier has sent nothing |
| Notifications.CsvEmailNotifier.Notify | csv_validator/notifications.py:77-105 | exactly one report is sent when some result's status is exactly "FAILED", at any position, and nothing is sent otherwise |
| Notifications.ReportLayout | csv_validator/notifications.py:52-58 | the first row is ("status", "name", "description", "output"), and row i+1 is result i's four fields, unchanged |
| Notifications.ReportRoundTrip | csv_validator/notifications.py:52-58 | the report loses nothing: reading it back gives the result list, in order |
| Notifications.ReportInjective | csv_validator/notifications.py:55-56 | different result lists give different reports |
| Notifications.ReportFailedIff | csv_validator/notifications.py:88-90 | over the suite's rows, some status is "FAILED" exactly when some reported rule ended FAILED |
| Notifications.HardStopIsReported | csv_validator/notifications.py:87-92 | a suite that stopped early on a hard failure always sends its report |
| Notifications.SuiteSendsIff | csv_validator/notifications.py:87-92 | the suite's notification sends a report exactly when a rule that ran ended FAILED |
| SchemaFromFile.BuildFields | bin/schema_from_file.py:23-33 | the loop builds the fields list of the specification, one item per column |
| SchemaFromFile.AddSchema | bin/schema_from_file.py:35-47 | the document produced is the loaded one, or {"paths": []}, with the new entry appended |
| SchemaFromFile.FieldItemsPerColumn | bin/schema_from_file.py:23-33 | one field item per column in column order, with its name and type string; an item is nullable exactly when its column is nullable and is not the primary key |
| SchemaFromFile.OutputAppends | bin/schema_from_file.py:39-47 | the new entry comes after all existing entries, which are unchanged, and carries the command-line delimiter, primary key, pattern and the field items |
| SchemaFromFile.FreshDocument | bin/schema_from_file.py:35-47 | without an existing output file, paths holds exactly the new entry |
| SchemaFromFile.AppendKeepsFirstMatch | bin/schema_from_file.py:39-47 | appending an entry never changes which existing entry is first to match a key; the new entry is chosen only when no existing one matches |
| SchemaFromFile.OutputSelection | bin/schema_from_file.py:36-47 | in the output document, get_schema selects the entry it selected before, or else the new entry if its pattern matches |
| SchemaFromFile.SchemaNamesAreColumns | bin/schema_from_file.py:23-33 | the schema get_schema builds from the new entry has the sample's column names, in column order |
| SchemaFromFile.SampleHeaderInOrder | bin/schema_from_file.py:21-33 | for a sample read at delimiter ",", the header line that scan_file's first pass reads at the default comma passes the column-order check against the new entry |
| SchemaFromFile.NonCommaSampleFailsScan | csv_validator/rules.py:174-179 | a sample of two or more columns read at any other one-character delimiter (with no comma in its header line) fails scan_file with "column <whole header line> is out of order", before the second pass |
| SchemaFromFile.PipeSampleRejected | csv_validator/rules.py:174-179 | the sample "id\|val" with delimiter "\|" is rejected by its own entry with "column id\|val is out of order" |
| SchemaFromFile.CommaFreeHeaderFailsScan | csv_validator/rules.py:174-189 | as written, a file whose header line has no comma (a ";" file under a "," entry, say) fails with "column <whole line> is out of order" unless that line is the first field's name; the delimiter message never comes |
| SchemaFromFile.SampleHeaderInOrderAnyDelimiter | csv_validator/rules.py:174-189 | under the corrected head, every sample passes against the entry made from it, whatever its one-character delimiter |
| SchemaFromFile.MisdelimitedFileGetsDelimiterMessage | csv_validator/rules.py:186-189 | under the corrected head, a file whose header line lacks the entry's delimiter gets the delimiter message when the entry has two or more fields: a comma file under a "\|" entry, or a ";" file under a "," entry |

## Left out

- S3, the boto3 session and pyarrow's parsing are not modelled. A file is
  an abstract `StoredFile`. pyarrow's type coercion and its
  `ArrowInvalid` errors are inputs of the model.
- The texts of pyarrow's own errors are placeholders: the `IndexError` of
  `schema[index]` and the `KeyError` of a missing or duplicated field
  name. The model keeps where they arise and that validate turns them into
  `"Unknown error: <message>"`.
- RuleModel.ResolveType: lower-cases ASCII letters only, where Python's
  `str.lower` maps all of Unicode. No non-ASCII character lower-cases to
  exactly one letter of "string", "str" or "utf8", so the string test has
  the same outcome.
- Regular-expression matching: `re.match` is the `Matcher` parameter.
  `Matcher` is total, so an invalid pattern in the schema document, whose
  `re.error` (csv_validator/rules.py:205) validate would report as
  `"Unknown error: ..."` (csv_validator/rules.py:164-165), is not modelled.
- RuleModel.Environment: one `config` outcome and one `store` function
  serve the whole run. Every schema rule therefore sees the same result of
  `config_loader.load`, and the two passes of scan_file read the same
  unchanging object. A configuration or an S3 object that changes between
  calls is not modelled.
- `logging` calls: they have no effect on behaviour.
- csv_validator/config.py is not part of this model. The loaded `paths`,
  or the loader's exception, is a parameter.
- csv_validator/handler.py and csv_validator/utils.py are not part of this
  model. They are environment and boto3 wiring.
- The event's JSON structure: records are (bucket, key) pairs. A malformed
  event (a missing `Records`, `s3`, `bucket` or `key` entry) is not
  modelled.
- A malformed schema document is not modelled: a missing `paths`,
  `pattern`, `delimiter`, `primary_key` or `fields` key, or an unknown type
  name that `pyarrow.field` would reject.
- Rules.ValidationSuite.Validate: requires the suite's rules to be distinct
  objects. A rule listed twice (aliasing) is not modelled.
- The two rule classes are one `Rules.Rule` class with a `kind` tag, because
  the model does not use inheritance. The base `Rule.validate` that raises
  `NotImplementedError` is not modelled.
- MIME construction and SES sending: the e-mail is modelled by the report
  rows it attaches, appended to the notifier's `outbox`. The
  notifier keeps `sender` and `recipients` as fields that no contract
  constrains. The boto3 `session`, the fixed subject and body text and the
  MIME layout are not modelled. `DebugNotifier` and the
  abstract `Notifier` are not modelled.
- CSV quoting and escaping by Python's csv module: a row is its list of
  fields.
- In bin/schema_from_file.py the model covers the field list and the path
  append only. Left out:
  - argparse;
  - pyarrow's type inference, whose output is the `InferredColumn` list;
  - reading and writing files. The script reads `--output-file` but always
    writes `schema.json`; only the resulting document is modelled.
  - top-level keys of the loaded document other than `paths`;
  - a missing command-line argument (`None`).
- The behave/S3 acceptance steps under atdd/ are not part of this model.

## Findings

| source | as written | input that shows it | evidently intended | confidence | as-written member | corrected member |
|---|---|---|---|---|---|---|
| csv_validator/rules.py:174-189 | the column-order pass opens the file with default parse options, so it splits the header at a comma, while the second pass (rules.py:183-185) and bin/schema_from_file.py:21-22 use the entry's delimiter; the one-column delimiter test (rules.py:186-189) runs only after the header passed | a file whose header line is "id\|val", under the entry bin/schema_from_file.py builds from it with `-d "\|"` (fields id, val): the first pass reads one column "id\|val" and validate fails with "column id\|val is out of order" (SchemaFromFile.PipeSampleRejected); and a ";" file "id;val" under a "," entry with fields id, val gets the same kind of column-order message instead of "Delimiter of the file is incorrect" (SchemaFromFile.CommaFreeHeaderFailsScan) | read the header at the entry's delimiter and run the one-column test before comparing it: a file then passes against the entry made from its own sample whatever its delimiter (SchemaFromFile.SampleHeaderInOrderAnyDelimiter), and a file without the entry's delimiter gets the delimiter message (SchemaFromFile.MisdelimitedFileGetsDelimiterMessage), which the comment at rules.py:186-187 says the test is for | medium, not executed | SchemaFromFile.NonCommaSampleFailsScan | SchemaFromFile.SampleHeaderInOrderAnyDelimiter |

The corrected head of scan_file is `RuleModel.CorrectedScanHead`. Reading
the header at the entry's delimiter alone would not do: a comma file under
a "|" entry, which the code as written sends to the delimiter message, would
then fail on column order. Moving the one-column test first keeps that
message for it. The validator itself (`RuleModel.ScanResult`,
`Rules.Rule.ScanFile`) keeps the code's order and comma pass, because that
is what the code does.
