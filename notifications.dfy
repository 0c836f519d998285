/**
  csv_validator/notifications.py: the e-mail notifier's send decision and
  the CSV report it attaches. A CSV row is kept as its list of fields;
  quoting is the csv module's business and is not modelled.
 */
module Notifications {
  import opened Wrappers
  import opened RuleModel
  import opened RuleProperties

  /** The fields of one row handed to `csv.writer.writerow`. */
  type CsvRow = seq<string>

  /** The header row of the report. */
  const Header: CsvRow := ["status", "name", "description", "output"]

  /** A result tuple as a CSV row: its four fields, in tuple order. */
  function Fields(r: ResultRow): CsvRow
  {
    [r.status, r.name, r.description, r.output]
  }

  /** The report layout: the header, then one row per result in input order. */
  function ReportRows(results: seq<ResultRow>): (rows: seq<CsvRow>)
  {
    [Header] + seq(|results|, i requires 0 <= i < |results| => Fields(results[i]))
  }

  /** Reads result tuples back from four-field rows; None when a row has another width. */
  function ParseRows(rows: seq<CsvRow>): (r: Option<seq<ResultRow>>)
    ensures r.Some? ==> |r.value| == |rows|
  {
    if rows == [] then Some([])
    else if |rows[0]| != 4 then None
    else
      match ParseRows(rows[1..])
      case None => None
      case Some(rest) => Some([ResultRow(rows[0][0], rows[0][1], rows[0][2], rows[0][3])] + rest)
  }

  /** Reads a report back: the header must come first. */
  function ParseReport(rows: seq<CsvRow>): Option<seq<ResultRow>>
  {
    if rows == [] || rows[0] != Header then None else ParseRows(rows[1..])
  }

  /** Some result carries exactly the status text "FAILED". */
  predicate AnyFailed(results: seq<ResultRow>)
  {
    exists i :: 0 <= i < |results| && results[i].status == "FAILED"
  }

  /** The in-memory text buffer the csv writer streams rows into. */
  class CsvBuffer {
    var rows: seq<CsvRow>

    constructor ()
      ensures rows == []
    {
      rows := [];
    }

    /** `writer.writerow(row)`. */
    method WriteRow(row: CsvRow)
      modifies this
      ensures rows == old(rows) + [row]
    {
      rows := rows + [row];
    }
  }

  /** CsvEmailNotifier._results_to_csv_buffer */
  method ResultsToCsvBuffer(results: seq<ResultRow>) returns (buffer: CsvBuffer)
    ensures fresh(buffer)
    ensures buffer.rows == ReportRows(results)
  {
    buffer := new CsvBuffer();
    buffer.WriteRow(Header);
    var i := 0;
    while i < |results|
      invariant 0 <= i <= |results|
      invariant buffer.rows == ReportRows(results[..i])
    {
      ReportRowsSnoc(results, i);
      buffer.WriteRow(Fields(results[i]));
      i := i + 1;
    }
    assert results[..i] == results;
  }

  /**
    CsvEmailNotifier. The SES client reached through `session` is modelled by
    `outbox`: the report of every e-mail sent, in sending order.
   */
  class CsvEmailNotifier {
    const sender: string
    const recipients: seq<string>
    var outbox: seq<seq<CsvRow>>

    constructor (sender: string, recipients: seq<string>)
      ensures this.sender == sender && this.recipients == recipients && outbox == []
    {
      this.sender := sender;
      this.recipients := recipients;
      outbox := [];
    }

    /** notify: send one report exactly when some result has status "FAILED". */
    method Notify(results: seq<ResultRow>)
      modifies this
      ensures outbox == old(outbox) + if AnyFailed(results) then [ReportRows(results)] else []
    {
      var failed := false;
      var i := 0;
      while i < |results|
        invariant 0 <= i <= |results|
        invariant failed <==> exists j :: 0 <= j < i && results[j].status == "FAILED"
      {
        if results[i].status == "FAILED" {
          failed := true;
        }
        i := i + 1;
      }
      if !failed {
        return;
      }
      var buffer := ResultsToCsvBuffer(results);
      outbox := outbox + [buffer.rows];
    }
  }

  // ---------------------------------------------------------------------
  // Properties
  // ---------------------------------------------------------------------

  /** The report has the header first and then exactly the results' fields, row by row. */
  lemma ReportLayout(results: seq<ResultRow>)
    ensures var rows := ReportRows(results);
      && |rows| == |results| + 1
      && rows[0] == ["status", "name", "description", "output"]
      && forall i :: 0 <= i < |results| ==>
           rows[i + 1] == [results[i].status, results[i].name, results[i].description, results[i].output]
  {
  }

  /** Writing one more result appends its row. */
  lemma ReportRowsSnoc(results: seq<ResultRow>, i: nat)
    requires i < |results|
    ensures ReportRows(results[..i + 1]) == ReportRows(results[..i]) + [Fields(results[i])]
  {
    assert ReportRows(results[..i + 1])[i + 1] == Fields(results[i]);
  }

  /** Reading the result rows back gives the results. */
  lemma {:induction false} ParseRowsFields(results: seq<ResultRow>)
    ensures ParseRows(seq(|results|, i requires 0 <= i < |results| => Fields(results[i]))) == Some(results)
  {
    var rows := seq(|results|, i requires 0 <= i < |results| => Fields(results[i]));
    if results != [] {
      var tail := results[1..];
      ParseRowsFields(tail);
      assert rows[1..] == seq(|tail|, i requires 0 <= i < |tail| => Fields(tail[i]));
      assert results == [results[0]] + tail;
    }
  }

  /** The report loses nothing: reading it back gives the result list, in order. */
  lemma ReportRoundTrip(results: seq<ResultRow>)
    ensures ParseReport(ReportRows(results)) == Some(results)
  {
    var rows := ReportRows(results);
    assert rows[1..] == seq(|results|, i requires 0 <= i < |results| => Fields(results[i]));
    ParseRowsFields(results);
  }

  /** Different result lists give different reports. */
  lemma ReportInjective(a: seq<ResultRow>, b: seq<ResultRow>)
    requires ReportRows(a) == ReportRows(b)
    ensures a == b
  {
    ReportRoundTrip(a);
    ReportRoundTrip(b);
  }

  /**
    Over the suite's result list, "some status is FAILED" means some reported
    rule ended FAILED: the notifier looks at nothing else.
   */
  lemma {:induction false} ReportFailedIff(xs: seq<Execution>)
    ensures AnyFailed(Report(xs)) <==> exists j :: 0 <= j < |xs| && xs[j].run.after.status == Failed
  {
    var rs := Report(xs);
    if AnyFailed(rs) {
      var j :| 0 <= j < |rs| && rs[j].status == "FAILED";
      assert xs[j].run.after.status == Failed;
    }
    if exists j :: 0 <= j < |xs| && xs[j].run.after.status == Failed {
      var j :| 0 <= j < |xs| && xs[j].run.after.status == Failed;
      assert rs[j].status == "FAILED";
    }
  }

  /** A suite that stopped early on a hard failure always sends its report. */
  lemma HardStopIsReported(xs: seq<Execution>)
    requires SuiteRun(xs).Notified? && |SuiteRun(xs).results| < |xs|
    ensures AnyFailed(SuiteRun(xs).results)
  {
    SuiteReportsPrefix(xs);
    var rs := SuiteRun(xs).results;
    var k := |rs| - 1;
    assert rs[k] == Row(xs[k]);
    assert rs[k].status == "FAILED";
  }

  /** The suite's notification sends a report exactly when a rule that ran ended FAILED. */
  lemma SuiteSendsIff(xs: seq<Execution>)
    requires SuiteRun(xs).Notified?
    ensures var rs := SuiteRun(xs).results;
      AnyFailed(rs) <==> exists j :: 0 <= j < |rs| && j < |xs| && xs[j].run.after.status == Failed
  {
    SuiteReportsPrefix(xs);
    var rs := SuiteRun(xs).results;
    ReportFailedIff(xs[..|rs|]);
    if exists j :: 0 <= j < |rs| && j < |xs| && xs[j].run.after.status == Failed {
      var j :| 0 <= j < |rs| && j < |xs| && xs[j].run.after.status == Failed;
      assert xs[..|rs|][j] == xs[j];
    }
  }
}
