/**
  Properties of the rule specifications in RuleModel: the extension test,
  the structural checks of scan_file, the record loop of ValidateSchema
  and the fail-fast loop of ValidationSuite.
 */
module RuleProperties {
  import opened Wrappers
  import opened RuleModel

  // ---------------------------------------------------------------------
  // Type aliases
  // ---------------------------------------------------------------------

  /** Type names that differ only in letter case resolve alike as far as utf8 goes. */
  lemma ResolveTypeIgnoresCase(a: string, b: string)
    requires Lower(a) == Lower(b)
    ensures ResolveType(a) == Utf8 <==> ResolveType(b) == Utf8
  {
  }

  /** "STRING", "Str" and "UTF8" are utf8; "large_string" is not. */
  lemma UpperCaseAliases()
    ensures ResolveType("STRING") == Utf8
    ensures ResolveType("Str") == Utf8
    ensures ResolveType("UTF8") == Utf8
    ensures ResolveType("large_string") == Named("large_string")
  {
    assert Lower("STRING") == "string";
    assert Lower("Str") == "str";
    assert Lower("UTF8") == "utf8";
    assert |Lower("large_string")| == 12;
  }

  // ---------------------------------------------------------------------
  // The extension test of FileFormatValidator
  // ---------------------------------------------------------------------

  /** Splitting and joining again on the same separator gives back the string. */
  lemma {:induction false} SplitJoin(s: string, sep: char)
    ensures Join(Split(s, sep), sep) == s
  {
    if s != [] {
      var rest := Split(s[1..], sep);
      SplitJoin(s[1..], sep);
      if s[0] == sep {
        assert Split(s, sep) == [[]] + rest;
        assert ([[]] + rest)[1..] == rest;
      } else if |rest| == 1 {
        assert Split(s, sep) == [[s[0]] + rest[0]];
        assert s == [s[0]] + s[1..];
      } else {
        var parts := [[s[0]] + rest[0]] + rest[1..];
        assert Split(s, sep) == parts;
        assert parts[1..] == rest[1..];
        assert Join(rest, sep) == rest[0] + [sep] + Join(rest[1..], sep);
        assert s == [s[0]] + s[1..];
      }
    }
  }

  /** `seg` is the longest suffix of `s` that contains no separator. */
  predicate IsLastSegment(seg: string, s: string, sep: char)
  {
    && |seg| <= |s|
    && seg == s[|s| - |seg|..]
    && sep !in seg
    && (|seg| < |s| ==> s[|s| - |seg| - 1] == sep)
  }

  /** How the last segment of s[1..] extends to the last segment of s. */
  lemma SegmentExtend(s: string, sep: char, e: string)
    requires s != [] && IsLastSegment(e, s[1..], sep)
    ensures s[0] == sep ==> IsLastSegment(e, s, sep)
    ensures s[0] != sep && |e| == |s| - 1 ==> IsLastSegment(s, s, sep)
    ensures |e| < |s| - 1 ==> IsLastSegment(e, s, sep)
  {
    var t := s[1..];
    assert t[|t| - |e|..] == s[|s| - |e|..];
    if |e| < |t| {
      assert s[|s| - |e| - 1] == t[|t| - |e| - 1];
    } else {
      assert e == t;
      assert s == [s[0]] + t;
    }
  }

  /** The last piece of a split, from the split of the tail. */
  lemma LastOfSplit(s: string, sep: char)
    requires s != []
    ensures var rest := Split(s[1..], sep);
      Last(Split(s, sep)) == if s[0] != sep && |rest| == 1 then [s[0]] + rest[0] else Last(rest)
  {
    var rest := Split(s[1..], sep);
    if s[0] == sep {
      assert Split(s, sep) == [[]] + rest;
    } else {
      assert Split(s, sep) == [[s[0]] + rest[0]] + rest[1..];
    }
  }

  /** `s.split(sep)[-1]` is the text after the last separator, or all of `s` when there is none. */
  lemma {:induction false} SplitLastSegment(s: string, sep: char)
    ensures IsLastSegment(Last(Split(s, sep)), s, sep)
  {
    if s != [] {
      var t := s[1..];
      var rest := Split(t, sep);
      SplitLastSegment(t, sep);
      var e := Last(rest);
      LastOfSplit(s, sep);
      SegmentExtend(s, sep, e);
      if s[0] != sep && |rest| == 1 {
        assert [s[0]] + rest[0] == s;
      }
    }
  }

  /** A last segment "csv" sits at the end, after a dot unless it is the whole key. */
  lemma CsvSegmentEnds(e: string, key: string)
    requires IsLastSegment(e, key, '.') && e == "csv"
    ensures key == "csv" || (|key| >= 4 && key[|key| - 4..] == ".csv")
  {
    var n := |key|;
    if n > 3 {
      assert key[n - 4..] == [key[n - 4]] + key[n - 3..];
    }
  }

  /** A key without dots is its own last segment. */
  lemma DotFreeSegment(e: string, key: string)
    requires IsLastSegment(e, key, '.') && '.' !in key
    ensures e == key
  {
  }

  /** A key ending in ".csv" has the last segment "csv". */
  lemma DotCsvSegment(e: string, key: string)
    requires IsLastSegment(e, key, '.') && |key| >= 4 && key[|key| - 4..] == ".csv"
    ensures e == "csv"
  {
    var n := |key|;
    assert key[n - 4] == '.' && key[n - 3] == 'c' && key[n - 2] == 's' && key[n - 1] == 'v' by {
      assert key[n - 4..][0] == '.' && key[n - 4..][1] == 'c' && key[n - 4..][2] == 's' && key[n - 4..][3] == 'v';
    }
    assert |e| == 3;
    assert e == key[n - 3..];
  }

  /** The last dot-free segment of a key is "csv" exactly when the key is "csv" or ends in ".csv". */
  lemma SegmentIsCsv(e: string, key: string)
    requires IsLastSegment(e, key, '.')
    ensures e == "csv" <==> key == "csv" || (|key| >= 4 && key[|key| - 4..] == ".csv")
  {
    if e == "csv" {
      CsvSegmentEnds(e, key);
    }
    if key == "csv" {
      assert '.' !in key;
      DotFreeSegment(e, key);
    }
    if |key| >= 4 && key[|key| - 4..] == ".csv" {
      DotCsvSegment(e, key);
    }
  }

  /** A key passes the extension test exactly when it is "csv" or ends in ".csv". */
  lemma CsvExtensionIff(key: string)
    ensures HasCsvExtension(key) <==> key == "csv" || (|key| >= 4 && key[|key| - 4..] == ".csv")
  {
    SplitLastSegment(key, '.');
    SegmentIsCsv(Last(Split(key, '.')), key);
  }

  /** FileFormatValidator fails with the message of the first key that is not *.csv. */
  lemma {:induction false} FileFormatFailsAtFirstBadKey(records: seq<Record>, k: nat)
    requires k < |records| && !HasCsvExtension(records[k].key)
    requires forall j :: 0 <= j < k ==> HasCsvExtension(records[j].key)
    ensures FileFormatFailure(records) == Some(records[k].key + " does not match pattern of *.csv")
  {
    if k > 0 {
      FileFormatFailsAtFirstBadKey(records[1..], k - 1);
    }
  }

  // ---------------------------------------------------------------------
  // get_schema
  // ---------------------------------------------------------------------

  /**
    First match wins: an entry matching the key is selected exactly when no
    earlier entry matches it, so swapping two matching entries changes the result.
   */
  lemma FirstMatchSelects(paths: seq<PathEntry>, key: string, matches: Matcher, k: nat)
    requires k < |paths|
    ensures FirstMatch(paths, key, matches) == Some(k) <==>
              matches(paths[k].pattern, key) && forall j :: 0 <= j < k ==> !matches(paths[j].pattern, key)
  {
  }

  // ---------------------------------------------------------------------
  // scan_file: column order
  // ---------------------------------------------------------------------

  /** The first positional mismatch is reported with the file's column name. */
  lemma {:induction false} ColumnOrderFirstMismatch(names: seq<string>, schema: seq<ArrowField>, i: nat, k: nat)
    requires i <= k < |names| && k < |schema|
    requires names[k] != schema[k].name
    requires forall j :: i <= j < k ==> names[j] == schema[j].name
    ensures ColumnOrderFrom(names, schema, i) == Some(ColumnOrder("column " + names[k] + " is out of order"))
    decreases k - i
  {
    if i < k {
      ColumnOrderFirstMismatch(names, schema, i + 1, k);
    }
  }

  /** A file with more columns than the schema, agreeing on the schema's columns, hits the IndexError. */
  lemma {:induction false} ColumnOrderExtraColumn(names: seq<string>, schema: seq<ArrowField>, i: nat)
    requires i <= |schema| < |names|
    requires forall j :: i <= j < |schema| ==> names[j] == schema[j].name
    ensures ColumnOrderFrom(names, schema, i) == Some(Library(IndexOutOfBounds))
    ensures FailMessage(Library(IndexOutOfBounds), "") == "Unknown error: index out of bounds"
    decreases |schema| - i
  {
    if i < |schema| {
      ColumnOrderExtraColumn(names, schema, i + 1);
    }
  }

  function Names(schema: seq<ArrowField>): (names: seq<string>)
    ensures |names| == |schema|
    ensures forall i :: 0 <= i < |schema| ==> names[i] == schema[i].name
  {
    seq(|schema|, i requires 0 <= i < |schema| => schema[i].name)
  }

  /** Any positional difference between equally long headers is a column-order failure. */
  lemma {:induction false} ColumnOrderDetectsMismatch(names: seq<string>, schema: seq<ArrowField>, i: nat)
    requires |names| == |schema| && i <= |names|
    requires exists k :: i <= k < |names| && names[k] != schema[k].name
    ensures ColumnOrderFrom(names, schema, i).Some?
    ensures ColumnOrderFrom(names, schema, i).value.ColumnOrder?
    decreases |names| - i
  {
    if names[i] == schema[i].name {
      var k :| i <= k < |names| && names[k] != schema[k].name;
      assert k != i;
      ColumnOrderDetectsMismatch(names, schema, i + 1);
    }
  }

  /** A header that is a reordering of the schema's names, but not the same order, fails the check. */
  lemma PermutedHeaderFails(names: seq<string>, schema: seq<ArrowField>)
    requires multiset(names) == multiset(Names(schema))
    requires names != Names(schema)
    ensures ColumnOrderFrom(names, schema, 0).Some?
    ensures ColumnOrderFrom(names, schema, 0).value.ColumnOrder?
  {
    assert |names| == |multiset(names)| == |multiset(Names(schema))| == |schema|;
    var k :| 0 <= k < |names| && names[k] != Names(schema)[k];
    ColumnOrderDetectsMismatch(names, schema, 0);
  }

  // ---------------------------------------------------------------------
  // scan_file: delimiter heuristic and primary-key scan
  // ---------------------------------------------------------------------

  /**
    Once the header passes, the wrong-delimiter failure is reported exactly when
    the schema has more than one field and the re-parse finds one column, whatever
    the batches hold.
   */
  lemma WrongDelimiterIff(schema: seq<ArrowField>, delimiter: string, primaryKey: string, file: StoredFile)
    requires file.header.Done?
    requires ColumnOrderFrom(file.header.value, schema, 0).None?
    requires file.reparse(delimiter, schema).Done?
    ensures ScanResult(schema, delimiter, primaryKey, file) == Some(WrongDelimiter) <==>
              |schema| > 1 && file.reparse(delimiter, schema).value.columnCount == 1
  {
  }

  /** An empty string in a utf8 primary-key column is reported, after earlier clean batches. */
  lemma {:induction false} EmptyPrimaryKeyFound(batches: seq<Batch>, schema: seq<ArrowField>, pk: string, i: nat, k: nat)
    requires FieldType(schema, pk) == Done(Utf8)
    requires i <= k < |batches|
    requires batches[k].Rows? && pk in batches[k].columns && Some("") in batches[k].columns[pk]
    requires forall j :: i <= j < k ==>
               batches[j].Rows? && pk in batches[j].columns && Some("") !in batches[j].columns[pk]
    ensures ScanBatchesFrom(batches, schema, pk, i) == Some(EmptyPrimaryKey)
    decreases k - i
  {
    if i < k {
      EmptyPrimaryKeyFound(batches, schema, pk, i + 1, k);
    }
  }

  /** The first batch that could not be read, from batch `i` on. */
  function FirstBadBatch(batches: seq<Batch>, i: nat): Option<ScanError>
    requires i <= |batches|
    decreases |batches| - i
  {
    if i == |batches| then None
    else if batches[i].BadBatch? then Some(Library(batches[i].error))
    else FirstBadBatch(batches, i + 1)
  }

  /** A primary key of another type is never scanned: only read errors can fail the batch loop. */
  lemma {:induction false} NonStringKeyNotScanned(batches: seq<Batch>, schema: seq<ArrowField>, pk: string, i: nat)
    requires FieldType(schema, pk).Done? && FieldType(schema, pk).value != Utf8
    requires i <= |batches|
    ensures ScanBatchesFrom(batches, schema, pk, i) == FirstBadBatch(batches, i)
    decreases |batches| - i
  {
    if i < |batches| {
      NonStringKeyNotScanned(batches, schema, pk, i + 1);
    }
  }

  /**
    A primary key that names no field, or two, makes the first readable batch
    raise the KeyError of `schema.field`, which validate reports as
    "Unknown error: <key>".
   */
  lemma AmbiguousKeyRaises(batches: seq<Batch>, schema: seq<ArrowField>, pk: string, i: nat, key: string)
    requires i < |batches| && batches[i].Rows?
    requires forall k :: !OnlyAt(schema, pk, k)
    ensures ScanBatchesFrom(batches, schema, pk, i) == Some(Library(KeyNotFound(pk)))
    ensures FailMessage(ScanBatchesFrom(batches, schema, pk, i).value, key) == "Unknown error: " + pk
  {
  }

  /** Null primary-key values are never reported as missing: only the empty string is. */
  lemma {:induction false} NullKeysNotFlagged(batches: seq<Batch>, schema: seq<ArrowField>, pk: string, i: nat)
    requires i <= |batches|
    requires forall j :: 0 <= j < |batches| && batches[j].Rows? && pk in batches[j].columns ==>
               Some("") !in batches[j].columns[pk]
    ensures ScanBatchesFrom(batches, schema, pk, i) != Some(EmptyPrimaryKey)
    decreases |batches| - i
  {
    if i < |batches| {
      NullKeysNotFlagged(batches, schema, pk, i + 1);
    }
  }

  // ---------------------------------------------------------------------
  // ValidateSchema.validate
  // ---------------------------------------------------------------------

  /** The record loop ends without a failure exactly when every record passes. */
  lemma {:induction false} RecordsPassIff(paths: seq<PathEntry>, records: seq<Record>, env: Environment, sel: Selection)
    ensures CheckRecords(paths, records, env, sel).failure.None? <==>
              forall i :: 0 <= i < |records| ==> RecordError(paths, records[i], env).None?
  {
    if records != [] {
      RecordsPassIff(paths, records[1..], env, SelectionAfter(paths, records[0], env, sel));
      assert forall i :: 1 <= i < |records| ==> records[i] == records[1..][i - 1];
    }
  }

  /** The first failing record ends the loop, with the message for its exception. */
  lemma {:induction false} RecordsFailAtFirst(paths: seq<PathEntry>, records: seq<Record>, env: Environment, sel: Selection, k: nat)
    requires k < |records| && RecordError(paths, records[k], env).Some?
    requires forall j :: 0 <= j < k ==> RecordError(paths, records[j], env).None?
    ensures CheckRecords(paths, records, env, sel).failure ==
              Some(FailMessage(RecordError(paths, records[k], env).value, records[k].key))
  {
    if k > 0 {
      RecordsFailAtFirst(paths, records[1..], env, SelectionAfter(paths, records[0], env, sel), k - 1);
    }
  }

  /** ValidateSchema ends SUCCESS exactly when the config loads and every record passes. */
  lemma SchemaRuleSucceedsIff(before: RuleState, records: seq<Record>, env: Environment)
    ensures RuleRun(SchemaCheck, before, records, env).after.status == Success <==>
              env.config.Done? && forall i :: 0 <= i < |records| ==> RecordError(env.config.value, records[i], env).None?
    ensures RuleRun(SchemaCheck, before, records, env).raised.Some? <==> env.config.Threw?
  {
    if env.config.Done? {
      RecordsPassIff(env.config.value, records, env, before.selection);
    }
  }

  /** FileFormatValidator ends SUCCESS exactly when every key ends in ".csv" or is "csv". */
  lemma FileFormatRuleSucceedsIff(before: RuleState, records: seq<Record>, env: Environment)
    ensures RuleRun(FileFormatCheck, before, records, env).after.status == Success <==>
              forall i :: 0 <= i < |records| ==>
                records[i].key == "csv" || (|records[i].key| >= 4 && records[i].key[|records[i].key| - 4..] == ".csv")
    ensures RuleRun(FileFormatCheck, before, records, env).after.status in {Success, Failed}
  {
    forall i | 0 <= i < |records| {
      CsvExtensionIff(records[i].key);
    }
  }

  // ---------------------------------------------------------------------
  // ValidationSuite.validate
  // ---------------------------------------------------------------------

  lemma ReportCons(x: Execution, xs: seq<Execution>)
    ensures Report([x] + xs) == [Row(x)] + Report(xs)
  {
  }

  /** Reporting one more execution appends its row. */
  lemma ReportSnoc(xs: seq<Execution>, i: nat)
    requires i < |xs|
    ensures Report(xs[..i + 1]) == Report(xs[..i]) + [Row(xs[i])]
  {
    assert xs[..i + 1] == xs[..i] + [xs[i]];
  }

  /** The loop stops at the first rule that fails hard or raises; every earlier rule is reported. */
  lemma {:induction false} SuiteRunStopsAt(xs: seq<Execution>, k: nat)
    requires k < |xs| && Halts(xs[k])
    requires forall j :: 0 <= j < k ==> !Halts(xs[j])
    ensures SuiteRun(xs) == if xs[k].run.raised.Some? then Propagated(xs[k].run.raised.value)
                            else Notified(Report(xs[..k + 1]))
    ensures RunCount(xs) == k + 1
  {
    if k > 0 {
      SuiteRunStopsAt(xs[1..], k - 1);
      assert xs[..k + 1] == [xs[0]] + xs[1..][..k];
      ReportCons(xs[0], xs[1..][..k]);
    } else {
      assert xs[..1] == [xs[0]];
    }
  }

  /** Without a hard failure or an escaping exception every rule is reported, in order. */
  lemma {:induction false} SuiteRunCompletes(xs: seq<Execution>)
    requires forall j :: 0 <= j < |xs| ==> !Halts(xs[j])
    ensures SuiteRun(xs) == Notified(Report(xs))
    ensures RunCount(xs) == |xs|
  {
    if xs != [] {
      SuiteRunCompletes(xs[1..]);
      assert xs == [xs[0]] + xs[1..];
      ReportCons(xs[0], xs[1..]);
    }
  }

  /**
    The reported list is one row per executed rule in rule order; no rule before
    the last reported one stopped the loop, and a shorter list ends with a hard failure.
   */
  lemma {:induction false} SuiteReportsPrefix(xs: seq<Execution>)
    requires SuiteRun(xs).Notified?
    ensures var rs := SuiteRun(xs).results;
      && |rs| <= |xs|
      && rs == Report(xs[..|rs|])
      && (forall i :: 0 <= i < |rs| - 1 ==> !Halts(xs[i]))
      && (|rs| < |xs| ==> |rs| > 0 && StopsSuite(xs[|rs| - 1]))
  {
    if xs != [] && !Halts(xs[0]) {
      SuiteReportsPrefix(xs[1..]);
      var rest := SuiteRun(xs[1..]).results;
      assert xs[..|rest| + 1] == [xs[0]] + xs[1..][..|rest|];
      ReportCons(xs[0], xs[1..][..|rest|]);
    } else if xs != [] {
      assert xs[..1] == [xs[0]];
    }
  }
}
