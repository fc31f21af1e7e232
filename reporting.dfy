/**
 * `ReporterWriter` and `ReportingService` (rss_keyword_collector/reporting.py):
 * for each censorship state, query the terms in that state and write them
 * to `<state>.report`; and mark a term as censored or not.
 *
 * The database's answer to a query is an input; the files written and the
 * statements issued are recorded as `Effects.Effect`s.
 */
module Reporting {
  import opened Strings
  import opened Outcomes
  import opened Effects
  import opened Polling

  // ---------------------------------------------------------------------
  // Queries
  // ---------------------------------------------------------------------

  /** `_get_query`'s table: the WHERE clause selecting the terms in a state. */
  const Queries: map<string, string> := map["censored" := "censored = true", "uncensored" := "censored = false"]

  /** `_get_query`: the clause for a known state; any other state fails. */
  function GetQuery(state: string): (r: Result<string>)
  {
    if state in Queries then Ok(Queries[state]) else Err(UnknownState)
  }

  /** `_get_terms`' statement for a state. */
  function GetTermsSql(state: string): Result<string>
  {
    match GetQuery(state)
    case Err(e) => Err(e)
    case Ok(query) => Ok("SELECT term FROM terms " + "WHERE " + query)
  }

  // ---------------------------------------------------------------------
  // set_censored
  // ---------------------------------------------------------------------

  /** The Python values `set_censored` may be handed as its `state`. */
  datatype PyValue = PyBool(b: bool) | PyInt(i: int) | PyStr(s: string) | PyNone

  /** `state == True` in Python: True itself, or the integer 1. */
  predicate EqualsTrue(v: PyValue) {
    v == PyBool(true) || v == PyInt(1)
  }

  /** `state == False` in Python: False itself, or the integer 0. */
  predicate EqualsFalse(v: PyValue) {
    v == PyBool(false) || v == PyInt(0)
  }

  /** The SQL boolean `set_censored` binds for a state; anything else is a ValueError. */
  function CensoredFlag(state: PyValue): Result<string>
  {
    if EqualsTrue(state) then Ok("true")
    else if EqualsFalse(state) then Ok("false")
    else Err(NotABool)
  }

  /** The statement text as the source writes it, trailing comma included. */
  const SetCensoredSql: string := "UPDATE terms " + "SET censored = %s, " + "WHERE term = %s"

  /** `set_censored(term, state=True)`: the update it issues, or its ValueError. */
  function SetCensored(term: string, state: PyValue := PyBool(true)): Result<Effect>
  {
    match CensoredFlag(state)
    case Err(e) => Err(e)
    case Ok(flag) => Ok(RunOperation(SetCensoredSql, [Text(flag), Text(term)]))
  }

  /** How the database reads a boolean literal. */
  function ParseSqlBool(s: string): Option<bool>
  {
    if s == "true" then Some(true) else if s == "false" then Some(false) else None
  }

  // ---------------------------------------------------------------------
  // Report files
  // ---------------------------------------------------------------------

  /** A row of `SELECT term FROM terms`. */
  datatype Row = Row(term: string)

  /** The states `update_files` reports on, in order. */
  const States: seq<string> := ["censored", "uncensored"]

  function RowTerms(rows: seq<Row>): (r: seq<string>)
    ensures |r| == |rows| && forall i :: 0 <= i < |rows| ==> r[i] == rows[i].term
  {
    seq(|rows|, i requires 0 <= i < |rows| => rows[i].term)
  }

  /** What `_write_term_file` leaves in the file: a time header, then one term per line. */
  function TermFileContent(now: string, rows: seq<Row>): string
  {
    "# " + now + "\n" + Terminated(RowTerms(rows))
  }

  /** `<output_dir>/<state>.report`. */
  function ReportPath(outputDir: string, state: string): string
  {
    PathJoin(outputDir, state + ".report")
  }

  /** What `update(state)` does: the query, then the report file when the answer has rows. */
  function UpdateEffects(outputDir: string, state: string, answer: string -> seq<Row>, now: string): seq<Effect>
  {
    match GetTermsSql(state)
    case Err(_) => []
    case Ok(sql) =>
      var rows := answer(sql);
      [RunQuery(sql)] + (if rows == [] then [] else [WriteFile(ReportPath(outputDir, state), TermFileContent(now, rows))])
  }

  /** What updating each of `states` in turn does. */
  function StatesEffects(outputDir: string, states: seq<string>, answer: string -> seq<Row>, now: string): seq<Effect>
  {
    if states == [] then []
    else StatesEffects(outputDir, states[..|states| - 1], answer, now) + UpdateEffects(outputDir, states[|states| - 1], answer, now)
  }

  // ---------------------------------------------------------------------
  // The writer
  // ---------------------------------------------------------------------

  class ReporterWriter {
    /** `path.abspath(environ['RKC_REPORT_PATH'])`. */
    const outputDir: string
    /** The files written and statements issued so far. */
    var effects: seq<Effect>

    constructor(outputDir: string)
      ensures this.outputDir == outputDir && effects == []
    {
      this.outputDir := outputDir;
      effects := [];
    }

    /** `_write_term_file`: nothing for no rows, else the header and one line per row to `<state>.report`. */
    method WriteTermFile(rows: seq<Row>, state: string, now: string)
      modifies this
      ensures rows == [] ==> effects == old(effects)
      ensures rows != [] ==> effects == old(effects) + [WriteFile(ReportPath(outputDir, state), TermFileContent(now, rows))]
    {
      if rows == [] {
        return;
      }
      var keywordPath := PathJoin(outputDir, state + ".report");
      var header := "# " + now + "\n";
      var content := header;
      var i := 0;
      while i < |rows|
        invariant 0 <= i <= |rows|
        invariant content == header + Terminated(RowTerms(rows[..i]))
        invariant effects == old(effects)
      {
        assert RowTerms(rows[..i + 1]) == RowTerms(rows[..i]) + [rows[i].term];
        TerminatedAppend(RowTerms(rows[..i]), [rows[i].term]);
        assert Terminated([rows[i].term]) == rows[i].term + "\n" + Terminated([]);
        content := content + rows[i].term + "\n";
        i := i + 1;
      }
      assert rows[..i] == rows;
      effects := effects + [WriteFile(keywordPath, content)];
    }

    /** `update(state)`: query the state's terms and write them out; an unknown state fails first. */
    method Update(state: string, answer: string -> seq<Row>, now: string) returns (err: Option<Error>)
      modifies this
      ensures err == (if GetQuery(state).Err? then Some(UnknownState) else None)
      ensures effects == old(effects) + UpdateEffects(outputDir, state, answer, now)
    {
      var terms := GetTermsSql(state);
      if terms.Err? {
        return Some(terms.error);
      }
      effects := effects + [RunQuery(terms.value)];
      WriteTermFile(answer(terms.value), state, now);
      return None;
    }

    /** `update_files`: the censored report, then the uncensored one. */
    method UpdateFiles(answer: string -> seq<Row>, now: string)
      modifies this
      ensures effects == old(effects) + StatesEffects(outputDir, States, answer, now)
    {
      var i := 0;
      assert States[..0] == [];
      while i < |States|
        invariant 0 <= i <= |States|
        invariant effects == old(effects) + StatesEffects(outputDir, States[..i], answer, now)
      {
        var state := States[i];
        assert States[..i + 1][..i] == States[..i];
        var _ := Update(state, answer, now);
        i := i + 1;
      }
      assert States[..i] == States;
    }
  }

  // ---------------------------------------------------------------------
  // The service
  // ---------------------------------------------------------------------

  /** `ReportingService`: the polling period and the writer it runs on each tick. */
  class ReportingService {
    var interval: int
    const reportWriter: ReporterWriter

    constructor(outputDir: string, interval: int := 600)
      ensures this.interval == PollingInterval(interval)
      ensures fresh(reportWriter) && reportWriter.outputDir == outputDir && reportWriter.effects == []
    {
      this.interval := interval / 60;
      reportWriter := new ReporterWriter(outputDir);
      new;
      if this.interval <= 60 {
        this.interval := 60;
      }
    }
  }

  // ---------------------------------------------------------------------
  // Properties
  // ---------------------------------------------------------------------

  /**
   * Exactly the two states have a clause, and different states select
   * different terms.
   */
  lemma GetQuerySpec(state: string, other: string)
    ensures GetQuery(state).Ok? <==> state == "censored" || state == "uncensored"
    ensures GetQuery(state).Ok? && GetQuery(other).Ok? && state != other ==> GetQuery(state) != GetQuery(other)
    ensures GetTermsSql(state).Ok? <==> GetQuery(state).Ok?
    ensures GetTermsSql(state).Ok? ==> GetTermsSql(state).value == "SELECT term FROM terms WHERE " + GetQuery(state).value
  {
  }

  /**
   * `set_censored` accepts exactly what compares equal to True or False,
   * and the database reads back the flag it binds as that boolean.
   */
  lemma CensoredFlagSpec(state: PyValue)
    ensures CensoredFlag(state).Ok? <==> EqualsTrue(state) || EqualsFalse(state)
    ensures CensoredFlag(state).Ok? ==> ParseSqlBool(CensoredFlag(state).value) == Some(EqualsTrue(state))
    ensures state.PyBool? ==> CensoredFlag(state) == Ok(if state.b then "true" else "false")
  {
  }

  /** The update binds the flag, then the term; with no state given it marks the term censored. */
  lemma SetCensoredSpec(term: string, state: PyValue)
    ensures SetCensored(term, state).Err? <==> !(EqualsTrue(state) || EqualsFalse(state))
    ensures SetCensored(term, state).Ok? ==>
      SetCensored(term, state).value.RunOperation? &&
      SetCensored(term, state).value.params == [Text(CensoredFlag(state).value), Text(term)]
    ensures SetCensored(term) == Ok(RunOperation(SetCensoredSql, [Text("true"), Text(term)]))
  {
  }

  /**
   * The report of a state selects exactly the terms `set_censored` marks
   * with that state's flag: "censored" for True, "uncensored" for False.
   */
  lemma ReportMatchesFlag(b: bool)
    ensures GetQuery(if b then "censored" else "uncensored") ==
      Ok("censored = " + CensoredFlag(PyBool(b)).value)
  {
    if b {
      assert "censored = " + "true" == "censored = true";
    } else {
      assert "censored = " + "false" == "censored = false";
    }
  }

  /**
   * Read line by line, a report is the time header followed by the
   * terms, in query order: one more line than there are rows.
   */
  lemma TermFileLines(now: string, rows: seq<Row>)
    requires '\n' !in now
    requires forall i :: 0 <= i < |rows| ==> '\n' !in rows[i].term
    ensures SplitLines(TermFileContent(now, rows)) == ["# " + now] + RowTerms(rows)
    ensures |SplitLines(TermFileContent(now, rows))| == |rows| + 1
  {
    var header := ["# " + now];
    assert header[1..] == [];
    assert Terminated(header) == "# " + now + "\n";
    TerminatedAppend(header, RowTerms(rows));
    LinesOfTerminated(header + RowTerms(rows));
  }

  /** The two reports go to two different files of the output directory. */
  lemma ReportPathsDistinct(outputDir: string)
    ensures ReportPath(outputDir, "censored") != ReportPath(outputDir, "uncensored")
    ensures outputDir <= ReportPath(outputDir, "censored") && outputDir <= ReportPath(outputDir, "uncensored")
  {
    PathJoinSpec(outputDir, "censored.report", "uncensored.report");
    assert "censored.report" != "uncensored.report" by {
      assert |"censored.report"| != |"uncensored.report"|;
    }
  }

  /** `update_files`' effects are those of updating "censored", then those of updating "uncensored". */
  lemma StatesEffectsSplit(outputDir: string, answer: string -> seq<Row>, now: string)
    ensures StatesEffects(outputDir, States, answer, now) ==
      UpdateEffects(outputDir, "censored", answer, now) + UpdateEffects(outputDir, "uncensored", answer, now)
  {
    var c := UpdateEffects(outputDir, "censored", answer, now);
    assert States[..1] == ["censored"] && ["censored"][..0] == [];
    assert StatesEffects(outputDir, ["censored"], answer, now) == [] + c;
    assert States[|States| - 1] == "uncensored";
  }

  /** After `update(state)` its report holds the rows found, or what it held before when there were none. */
  lemma UpdateOwnReport(outputDir: string, state: string, answer: string -> seq<Row>, now: string, before: seq<Effect>)
    requires GetQuery(state).Ok?
    ensures var rows := answer(GetTermsSql(state).value);
      LastWrite(before + UpdateEffects(outputDir, state, answer, now), ReportPath(outputDir, state)) ==
        if rows == [] then LastWrite(before, ReportPath(outputDir, state)) else Some(TermFileContent(now, rows))
  {
    var u := UpdateEffects(outputDir, state, answer, now);
    if answer(GetTermsSql(state).value) == [] {
      assert !Writes(u[0], ReportPath(outputDir, state));
      LastWriteSkips(before, u, ReportPath(outputDir, state));
    }
  }

  /** `update(state)` leaves the report of any other file unchanged. */
  lemma UpdateOtherReport(outputDir: string, state: string, path: string, answer: string -> seq<Row>, now: string, before: seq<Effect>)
    requires path != ReportPath(outputDir, state)
    ensures LastWrite(before + UpdateEffects(outputDir, state, answer, now), path) == LastWrite(before, path)
  {
    var u := UpdateEffects(outputDir, state, answer, now);
    assert forall i :: 0 <= i < |u| ==> !Writes(u[i], path);
    LastWriteSkips(before, u, path);
  }

  /**
   * `update_files` queries the censored terms before the uncensored ones,
   * and afterwards each report holds its state's rows, or, when the
   * query found none, whatever it held before.
   */
  lemma UpdateFilesSpec(outputDir: string, answer: string -> seq<Row>, now: string, before: seq<Effect>)
    ensures var sqlC, sqlU := GetTermsSql("censored").value, GetTermsSql("uncensored").value;
      var es := StatesEffects(outputDir, States, answer, now);
      es == UpdateEffects(outputDir, "censored", answer, now) + UpdateEffects(outputDir, "uncensored", answer, now) &&
      es[0] == RunQuery(sqlC) && es[|UpdateEffects(outputDir, "censored", answer, now)|] == RunQuery(sqlU)
    ensures var es := before + StatesEffects(outputDir, States, answer, now);
      forall state | state in States ::
        var rows := answer(GetTermsSql(state).value);
        LastWrite(es, ReportPath(outputDir, state)) ==
          if rows == [] then LastWrite(before, ReportPath(outputDir, state)) else Some(TermFileContent(now, rows))
  {
    var c := UpdateEffects(outputDir, "censored", answer, now);
    var u := UpdateEffects(outputDir, "uncensored", answer, now);
    StatesEffectsSplit(outputDir, answer, now);
    var pc, pu := ReportPath(outputDir, "censored"), ReportPath(outputDir, "uncensored");
    ReportPathsDistinct(outputDir);
    assert before + (c + u) == (before + c) + u;
    UpdateOtherReport(outputDir, "uncensored", pc, answer, now, before + c);
    UpdateOwnReport(outputDir, "censored", answer, now, before);
    UpdateOwnReport(outputDir, "uncensored", answer, now, before + c);
    UpdateOtherReport(outputDir, "censored", pu, answer, now, before);
  }
}
