/**
  The rule objects of csv_validator/rules.py and the suite that runs them.
  Each method is proved against the specification functions of RuleModel.
 */
module Rules {
  import opened Wrappers
  import opened RuleModel
  import opened RuleProperties

  /**
    A rule: the base class's name, description, status, output and
    continue_on_fail, plus the fields only ValidateSchema uses. `kind` says
    which concrete rule this is.
   */
  class Rule {
    const name: string
    const description: string
    const kind: RuleKind
    var status: Status
    var output: string
    var continueOnFail: bool
    var paths: Option<seq<PathEntry>>
    var delimiter: Option<string>
    var pattern: Option<string>
    var primaryKey: Option<string>

    /** The fields validate may change, as one value. */
    function State(): RuleState
      reads this
    {
      RuleState(status, output, continueOnFail, paths, Selection(delimiter, pattern, primaryKey))
    }

    constructor (name: string, description: string, kind: RuleKind)
      ensures this.name == name && this.description == description && this.kind == kind
      ensures status == NotRun && output == "" && !continueOnFail
      ensures paths == None && delimiter == None && pattern == None && primaryKey == None
    {
      this.name := name;
      this.description := description;
      this.kind := kind;
      status := NotRun;
      output := "";
      continueOnFail := false;
      paths := None;
      delimiter := None;
      pattern := None;
      primaryKey := None;
    }

    /** fail: mark the rule FAILED with the given output. */
    method Fail(message: string)
      modifies this
      ensures status == Failed && output == message
      ensures continueOnFail == old(continueOnFail) && paths == old(paths)
      ensures delimiter == old(delimiter) && pattern == old(pattern) && primaryKey == old(primaryKey)
    {
      status := Failed;
      output := message;
    }

    /** Run the rule's business logic: dispatch on the concrete rule. */
    method Validate(event: seq<Record>, env: Environment) returns (raised: Option<Raised>)
      modifies this
      ensures Validation(State(), raised) == RuleRun(kind, old(State()), event, env)
    {
      match kind
      case FileFormatCheck =>
        FileFormatValidate(event);
        raised := None;
      case SchemaCheck =>
        raised := SchemaValidate(event, env);
    }

    /** FileFormatValidator.validate */
    method FileFormatValidate(records: seq<Record>)
      modifies this
      ensures FileFormatFailure(records).None? ==> status == Success && output == old(output)
      ensures FileFormatFailure(records).Some? ==> status == Failed && output == FileFormatFailure(records).value
      ensures continueOnFail == old(continueOnFail) && paths == old(paths)
      ensures delimiter == old(delimiter) && pattern == old(pattern) && primaryKey == old(primaryKey)
    {
      status := Started;
      var i := 0;
      while i < |records|
        invariant 0 <= i <= |records|
        invariant FileFormatFailure(records[i..]) == FileFormatFailure(records)
        invariant status == Started && output == old(output)
        invariant continueOnFail == old(continueOnFail) && paths == old(paths)
        invariant delimiter == old(delimiter) && pattern == old(pattern) && primaryKey == old(primaryKey)
      {
        var key := records[i].key;
        if Last(Split(key, '.')) != "csv" {
          Fail(FormatMessage(key));
          return;
        }
        assert records[i..][1..] == records[i + 1..];
        i := i + 1;
      }
      status := Success;
    }

    /** ValidateSchema.validate: load the paths, then check each record until one fails. */
    method SchemaValidate(records: seq<Record>, env: Environment) returns (raised: Option<Raised>)
      modifies this
      ensures Validation(State(), raised) == RuleRun(SchemaCheck, old(State()), records, env)
      ensures continueOnFail == old(continueOnFail)
    {
      status := Started;
      if env.config.Threw? {
        // The load is outside the try block: its exception escapes validate.
        return Some(env.config.error);
      }
      paths := Some(env.config.value);
      ghost var start := Selection(delimiter, pattern, primaryKey);
      var i := 0;
      while i < |records|
        invariant 0 <= i <= |records|
        invariant paths == Some(env.config.value) && status == Started && output == old(output)
        invariant continueOnFail == old(continueOnFail)
        invariant CheckRecords(env.config.value, records[i..], env, Selection(delimiter, pattern, primaryKey))
                  == CheckRecords(env.config.value, records, env, start)
      {
        var rec := records[i];
        assert records[i..][0] == rec && records[i..][1..] == records[i + 1..];
        var schema := GetSchema(rec.key, env.matches);
        if schema.None? {
          Fail(FailMessage(NoMatchingSchema, rec.key));
          return None;
        }
        var err := ScanFile(rec.bucket, rec.key, schema.value, env.store);
        if err.Some? {
          Fail(FailMessage(err.value, rec.key));
          return None;
        }
        i := i + 1;
      }
      status := Success;
      raised := None;
    }

    /** ValidateSchema.get_schema: the first path entry whose pattern matches the key. */
    method GetSchema(key: string, matches: Matcher) returns (schema: Option<seq<ArrowField>>)
      requires paths.Some?
      modifies this
      ensures status == old(status) && output == old(output) && paths == old(paths)
      ensures continueOnFail == old(continueOnFail)
      ensures FirstMatch(paths.value, key, matches).None? ==>
                schema.None? && delimiter == old(delimiter) && pattern == old(pattern) && primaryKey == old(primaryKey)
      ensures FirstMatch(paths.value, key, matches).Some? ==>
                var entry := paths.value[FirstMatch(paths.value, key, matches).value];
                schema == Some(SchemaOf(entry)) && Selection(delimiter, pattern, primaryKey) == Select(entry)
    {
      var candidates := paths.value;
      var i := 0;
      while i < |candidates|
        invariant 0 <= i <= |candidates|
        invariant forall j :: 0 <= j < i ==> !matches(candidates[j].pattern, key)
      {
        var path := candidates[i];
        if matches(path.pattern, key) {
          FirstMatchSelects(candidates, key, matches, i);
          delimiter := Some(path.delimiter);
          pattern := Some(path.pattern);
          primaryKey := Some(path.primaryKey);
          var fields: seq<ArrowField> := [];
          var j := 0;
          while j < |path.fields|
            invariant 0 <= j <= |path.fields|
            invariant fields == SchemaOf(path)[..j]
          {
            var field := path.fields[j];
            fields := fields + [ArrowField(field.name, ResolveType(field.typeName), field.nullable)];
            j := j + 1;
          }
          assert fields == SchemaOf(path);
          return Some(fields);
        }
        i := i + 1;
      }
      return None;
    }

    /**
      ValidateSchema.scan_file: the column-order pass, then the re-parse with the
      selected delimiter and types, the delimiter heuristic and the batch loop.
     */
    method ScanFile(bucket: string, key: string, schema: seq<ArrowField>, store: FileStore)
      returns (err: Option<ScanError>)
      requires delimiter.Some? && primaryKey.Some?
      ensures err == ScanResult(schema, delimiter.value, primaryKey.value, store(bucket, key))
    {
      var file := store(bucket, key);
      // First pass: default parse options, header only.
      if file.header.Threw? {
        return Some(Library(file.header.error));
      }
      var names := file.header.value;
      var index := 0;
      while index < |names|
        invariant 0 <= index <= |names| && index <= |schema|
        invariant ColumnOrderFrom(names, schema, index) == ColumnOrderFrom(names, schema, 0)
      {
        if index == |schema| {
          return Some(Library(IndexOutOfBounds));
        }
        if names[index] != schema[index].name {
          return Some(ColumnOrder(OutOfOrderMessage(names[index])));
        }
        index := index + 1;
      }
      // Second pass: declared delimiter and column types.
      var pk := primaryKey.value;
      var reparsed := file.reparse(delimiter.value, schema);
      if reparsed.Threw? {
        return Some(Library(reparsed.error));
      }
      var pass := reparsed.value;
      if |schema| > 1 && pass.columnCount == 1 {
        return Some(WrongDelimiter);
      }
      var b := 0;
      while b < |pass.batches|
        invariant 0 <= b <= |pass.batches|
        invariant ScanBatchesFrom(pass.batches, schema, pk, b) == ScanBatchesFrom(pass.batches, schema, pk, 0)
      {
        var batch := pass.batches[b];
        if batch.BadBatch? {
          return Some(Library(batch.error));
        }
        var pkType := FieldType(schema, pk);
        if pkType.Threw? {
          return Some(Library(pkType.error));
        }
        if pkType.value == Utf8 {
          if pk !in batch.columns {
            return Some(Library(KeyNotFound(pk)));
          }
          var values := batch.columns[pk];
          var v := 0;
          while v < |values|
            invariant 0 <= v <= |values|
            invariant Some("") !in values[..v]
          {
            if values[v] == Some("") {
              return Some(EmptyPrimaryKey);
            }
            v := v + 1;
          }
          assert values[..v] == values;
        }
        b := b + 1;
      }
      return None;
    }
  }

  /** The fields validate may change, rule by rule. */
  function States(rules: seq<Rule>): (states: seq<RuleState>)
    reads rules
    ensures |states| == |rules|
    ensures forall i :: 0 <= i < |rules| ==> states[i] == rules[i].State()
  {
    if rules == [] then [] else [rules[0].State()] + States(rules[1..])
  }

  /** `x` is what validating `rule` from `state` does. */
  predicate Planned(rule: Rule, state: RuleState, x: Execution, event: seq<Record>, env: Environment)
  {
    x == Execution(rule.name, rule.description, RuleRun(rule.kind, state, event, env))
  }

  /** What each rule's validate call would do when the rules are in `states`. */
  function Executions(rules: seq<Rule>, states: seq<RuleState>, event: seq<Record>, env: Environment)
    : (xs: seq<Execution>)
    requires |states| == |rules|
    ensures |xs| == |rules|
    ensures forall i :: 0 <= i < |rules| ==> Planned(rules[i], states[i], xs[i], event, env)
  {
    if rules == [] then []
    else
      [Execution(rules[0].name, rules[0].description, RuleRun(rules[0].kind, states[0], event, env))]
      + Executions(rules[1..], states[1..], event, env)
  }

  /** Runs the rules in order and hands the result list to the notifier. */
  class ValidationSuite {
    const rules: seq<Rule>

    constructor (rules: seq<Rule>)
      ensures this.rules == rules
    {
      this.rules := rules;
    }

    /**
      ValidationSuite.validate. `notified` lists the result lists passed to
      notify; `raised` is an exception that escaped a rule (and the suite).
      The rules must be distinct objects.
     */
    method Validate(event: seq<Record>, env: Environment)
      returns (notified: seq<seq<ResultRow>>, raised: Option<Raised>)
      requires forall i, j :: 0 <= i < j < |rules| ==> rules[i] != rules[j]
      modifies rules
      ensures var xs := Executions(rules, old(States(rules)), event, env);
        var run := SuiteRun(xs);
        && (run.Notified? ==> notified == [run.results] && raised == None)
        && (run.Propagated? ==> notified == [] && raised == Some(run.error))
        && (forall i :: 0 <= i < RunCount(xs) ==> rules[i].State() == xs[i].run.after)
        && (forall i :: RunCount(xs) <= i < |rules| ==> rules[i].State() == old(rules[i].State()))
    {
      ghost var states := States(rules);
      ghost var xs := Executions(rules, states, event, env);
      var results, r;
      ghost var k;
      results, r, k := RunRules(event, env, states, xs);
      if k < |rules| {
        SuiteRunStopsAt(xs, k);
      } else {
        SuiteRunCompletes(xs);
        assert xs[..k] == xs;
      }
      if r.Some? {
        notified, raised := [], r;
      } else {
        notified, raised := [results], None;
      }
    }

    /**
      The loop of ValidationSuite.validate. `k` is the index of the rule that
      stopped it, or |rules| when every rule ran.
     */
    method RunRules(event: seq<Record>, env: Environment, ghost states: seq<RuleState>, ghost xs: seq<Execution>)
      returns (results: seq<ResultRow>, raised: Option<Raised>, ghost k: nat)
      requires forall i, j :: 0 <= i < j < |rules| ==> rules[i] != rules[j]
      requires |states| == |rules| && |xs| == |rules|
      requires forall j :: 0 <= j < |rules| ==> rules[j].State() == states[j]
      requires forall j :: 0 <= j < |rules| ==> Planned(rules[j], states[j], xs[j], event, env)
      modifies rules
      ensures k <= |rules|
      ensures forall j :: 0 <= j < k ==> !Halts(xs[j])
      ensures k < |rules| ==> Halts(xs[k])
      ensures raised == if k < |rules| then xs[k].run.raised else None
      ensures raised.None? ==> results == Report(xs[..if k < |rules| then k + 1 else k])
      ensures forall j :: 0 <= j < |rules| && j <= k ==> rules[j].State() == xs[j].run.after
      ensures forall j :: k < j < |rules| ==> rules[j].State() == states[j]
    {
      results := [];
      var i := 0;
      while i < |rules|
        invariant 0 <= i <= |rules|
        invariant forall j :: 0 <= j < i ==> !Halts(xs[j])
        invariant results == Report(xs[..i])
        invariant forall j :: 0 <= j < i ==> rules[j].State() == xs[j].run.after
        invariant forall j :: i <= j < |rules| ==> rules[j].State() == states[j]
      {
        var r, row, stops := RunRule(i, event, env, states, xs);
        if r.Some? {
          return results, r, i;
        }
        ReportSnoc(xs, i);
        results := results + [row];
        if stops {
          return results, None, i;
        }
        i := i + 1;
      }
      assert xs[..i] == xs;
      return results, None, i;
    }

    /**
      One iteration of the suite's loop: validate rule i, build its result
      tuple and read the break condition (failed and not continue_on_fail).
     */
    method RunRule(i: nat, event: seq<Record>, env: Environment, ghost states: seq<RuleState>,
                   ghost xs: seq<Execution>)
      returns (raised: Option<Raised>, row: ResultRow, stops: bool)
      requires i < |rules| && forall j :: 0 <= j < |rules| && j != i ==> rules[j] != rules[i]
      requires i < |states| && i < |xs| && rules[i].State() == states[i]
      requires Planned(rules[i], states[i], xs[i], event, env)
      modifies rules[i]
      ensures rules[i].State() == xs[i].run.after && raised == xs[i].run.raised
      ensures row == Row(xs[i]) && stops == StopsSuite(xs[i])
      ensures forall j :: 0 <= j < |rules| && j != i ==> rules[j].State() == old(rules[j].State())
    {
      var rule := rules[i];
      raised := rule.Validate(event, env);
      row := ResultRow(StatusName(rule.status), rule.name, rule.description, rule.output);
      stops := rule.status == Failed && !rule.continueOnFail;
    }
  }
}
