/**
 * `EntryParser` and `ParserService` (rss_keyword_collector/parse.py):
 * for each unscraped entry, extract the page text and its terms, write
 * the keyword file, insert the terms and mark the entry as scraped.
 *
 * The page download, `uuid4()` and `datetime.now()` are inputs; the files
 * written and the statements issued are recorded as `Effects.Effect`s.
 */
module EntryParser {
  import opened Strings
  import opened Outcomes
  import opened Effects
  import opened Polling
  import TextExtract
  import TermExtract

  // ---------------------------------------------------------------------
  // The term insert statement
  // ---------------------------------------------------------------------

  /** `keyword.replace("'", "''")`: every single quote doubled. */
  function Escape(k: string): (r: string)
    ensures |r| >= |k|
    ensures '\'' !in k ==> r == k
  {
    if k == [] then []
    else (if k[0] == '\'' then "''" else [k[0]]) + Escape(k[1..])
  }

  /** One row of the insert: the quoted term, not censored. */
  function TermTuple(k: string): string
  {
    "('" + Escape(k) + "', false)"
  }

  function TermTuples(ks: seq<string>): (r: seq<string>)
    ensures |r| == |ks|
  {
    seq(|ks|, i requires 0 <= i < |ks| => TermTuple(ks[i]))
  }

  lemma TermTuplesPrefix(ks: seq<string>, i: nat)
    requires i < |ks|
    ensures TermTuples(ks[..i + 1]) == TermTuples(ks[..i]) + [TermTuple(ks[i])]
  {
    assert ks[..i + 1] == ks[..i] + [ks[i]];
  }

  const InsertPrefix: string := "INSERT INTO terms " + "(term, censored) VALUES "
  const ConflictClause: string := " ON CONFLICT (term) DO NOTHING"

  /** The statement `update_keywords` builds for a keyword list. */
  function InsertTermsSql(keywords: seq<string>): string
  {
    InsertPrefix + Join(TermTuples(keywords), ", ") + ConflictClause
  }

  // ---------------------------------------------------------------------
  // Reading the statement back, as a SQL parser reads string literals
  // ---------------------------------------------------------------------

  /**
   * The body of a single-quoted SQL literal, read up to its closing quote:
   * `''` stands for one quote, a lone `'` ends the literal. Gives the
   * value and the text after the closing quote.
   */
  function ReadQuoted(s: string): (r: Option<(string, string)>)
    ensures r.Some? ==> |r.value.1| < |s|
    decreases |s|
  {
    if s == [] then None
    else if s[0] == '\'' then
      if |s| >= 2 && s[1] == '\'' then
        match ReadQuoted(s[2..])
        case None => None
        case Some((v, rest)) => Some(("'" + v, rest))
      else Some(("", s[1..]))
    else
      match ReadQuoted(s[1..])
      case None => None
      case Some((v, rest)) => Some(([s[0]] + v, rest))
  }

  /** One `('<term>', false)` row, and the text after it. */
  function ParseTuple(s: string): (r: Option<(string, string)>)
    ensures r.Some? ==> |r.value.1| < |s|
  {
    if |s| < 2 || s[..2] != "('" then None
    else
      match ReadQuoted(s[2..])
      case None => None
      case Some((k, rest)) =>
        if |rest| >= 8 && rest[..8] == ", false)" then Some((k, rest[8..])) else None
  }

  /** A non-empty list of rows separated by `, `. */
  function ParseTupleList(s: string): (r: Option<seq<string>>)
    decreases |s|
  {
    match ParseTuple(s)
    case None => None
    case Some((k, rest)) =>
      if rest == [] then Some([k])
      else if |rest| >= 2 && rest[..2] == ", " then
        match ParseTupleList(rest[2..])
        case None => None
        case Some(ks) => Some([k] + ks)
      else None
  }

  /** The terms an insert statement of this shape carries. */
  function ParseInsertTerms(sql: string): Option<seq<string>>
  {
    var p, c := |InsertPrefix|, |ConflictClause|;
    if |sql| < p + c || sql[..p] != InsertPrefix || sql[|sql| - c..] != ConflictClause then None
    else
      var body := sql[p..|sql| - c];
      if body == [] then Some([]) else ParseTupleList(body)
  }

  // ---------------------------------------------------------------------
  // The keyword file
  // ---------------------------------------------------------------------

  /** What `write_keyword_file` leaves in the file: url and time headers, then one keyword per line. */
  function KeywordFileContent(url: string, now: string, keywords: seq<string>): string
  {
    "# " + url + "\n\n" + "# " + now + "\n" + Terminated(keywords)
  }

  // ---------------------------------------------------------------------
  // One entry of `run`
  // ---------------------------------------------------------------------

  const UpdateEntrySql: string := "UPDATE entries " + "SET term_file = %s, " + "scraped = true " + "WHERE url = %s"

  /** An unscraped entry with what the outside world supplies for it. */
  datatype FetchedEntry = FetchedEntry(
    url: string,                      // the row of get_unparsed_entries
    page: TextExtract.Document,       // getPage(url), as parsed
    analysis: TermExtract.Analysis,   // the tokenizers' and recogniser's output for its text
    uuid: string,                     // uuid4().hex
    now: string)                      // str(datetime.now())

  /** The terms `run` extracts for an entry: its page's language, stop words kept. */
  function EntryTerms(e: FetchedEntry): Result<seq<string>>
  {
    match TextExtract.ExtractText(e.url, e.page)
    case Err(err) => Err(err)
    case Ok(x) => Ok(TermExtract.Terms(TermExtract.ExtractTerms(x.text, x.lang, false, e.analysis)))
  }

  /** What `run` does once an entry's terms are known: keyword file and insert when there are terms, then the entry update. */
  function StoreEffects(keywordDir: string, e: FetchedEntry, terms: seq<string>): seq<Effect>
  {
    var store :=
      if terms != [] then
        [WriteFile(PathJoin(keywordDir, e.uuid), KeywordFileContent(e.url, e.now, terms)),
         RunOperation(InsertTermsSql(terms), [])]
      else [];
    store + [RunOperation(UpdateEntrySql, [Text(e.uuid), Text(e.url)])]
  }

  /** What `run` does for one entry, or the error extraction raises. */
  function EntryEffects(keywordDir: string, e: FetchedEntry): Result<seq<Effect>>
  {
    match EntryTerms(e)
    case Err(err) => Err(err)
    case Ok(terms) => Ok(StoreEffects(keywordDir, e, terms))
  }

  /** One entry as a step of `run`: its effects, or none and the error that ends the run. */
  function EntryStep(keywordDir: string, e: FetchedEntry): (seq<Effect>, Option<Error>)
  {
    match EntryEffects(keywordDir, e)
    case Err(err) => ([], Some(err))
    case Ok(more) => (more, None)
  }

  /** Steps taken in turn: their effects in order, stopping at the first one that fails. */
  function RunSteps<T>(items: seq<T>, step: T -> (seq<Effect>, Option<Error>)): (seq<Effect>, Option<Error>)
  {
    if items == [] then ([], None)
    else
      var (done, err) := RunSteps(items[..|items| - 1], step);
      if err.Some? then (done, err)
      else
        var (more, err') := step(items[|items| - 1]);
        (done + more, err')
  }

  /** What `run` does for a list of entries: each entry's step in turn, stopping at the first error. */
  function RunEffects(keywordDir: string, items: seq<FetchedEntry>): (seq<Effect>, Option<Error>)
  {
    RunSteps(items, (e: FetchedEntry) => EntryStep(keywordDir, e))
  }

  // ---------------------------------------------------------------------
  // The parser
  // ---------------------------------------------------------------------

  class EntryParser {
    /** `environ['RKC_KEYWORD_PATH']`. */
    const keywordDir: string
    /** The files written and statements issued so far. */
    var effects: seq<Effect>

    constructor(keywordDir: string)
      ensures this.keywordDir == keywordDir && effects == []
    {
      this.keywordDir := keywordDir;
      effects := [];
    }

    /** `write_keyword_file`: the two headers, then one line per keyword, to `<keyword_dir>/<hash>`. */
    method WriteKeywordFile(keywords: seq<string>, keywordHash: string, url: string, now: string)
      modifies this
      ensures effects == old(effects) + [WriteFile(PathJoin(keywordDir, keywordHash), KeywordFileContent(url, now, keywords))]
    {
      var keywordPath := PathJoin(keywordDir, keywordHash);
      var header := "# " + url + "\n\n" + "# " + now + "\n";
      var content := header;
      var i := 0;
      while i < |keywords|
        invariant 0 <= i <= |keywords|
        invariant content == header + Terminated(keywords[..i])
        invariant effects == old(effects)
      {
        TerminatedAppend(keywords[..i], [keywords[i]]);
        assert keywords[..i + 1] == keywords[..i] + [keywords[i]];
        assert Terminated([keywords[i]]) == keywords[i] + "\n" + Terminated([]);
        content := content + keywords[i] + "\n";
        i := i + 1;
      }
      assert keywords[..i] == keywords;
      effects := effects + [WriteFile(keywordPath, content)];
    }

    /** `update_keywords`: the rows accumulated behind a first-row flag, then the insert issued. */
    method UpdateKeywords(keywords: seq<string>)
      modifies this
      ensures effects == old(effects) + [RunOperation(InsertTermsSql(keywords), [])]
    {
      var termString := "";
      var first := true;
      var i := 0;
      while i < |keywords|
        invariant 0 <= i <= |keywords|
        invariant first <==> i == 0
        invariant termString == Join(TermTuples(keywords[..i]), ", ")
        invariant effects == old(effects)
      {
        JoinAppend(TermTuples(keywords[..i]), TermTuple(keywords[i]), ", ");
        TermTuplesPrefix(keywords, i);
        var row := TermTuple(keywords[i]);
        if first {
          termString := termString + row;
          first := false;
        } else {
          termString := termString + ", " + row;
        }
        i := i + 1;
      }
      assert keywords[..i] == keywords;
      var sql := InsertPrefix + termString + ConflictClause;
      effects := effects + [RunOperation(sql, [])];
    }

    /** `update_entry`: record the keyword file's name and mark the entry scraped. */
    method UpdateEntry(url: string, keywordHash: string)
      modifies this
      ensures effects == old(effects) + [RunOperation(UpdateEntrySql, [Text(keywordHash), Text(url)])]
    {
      effects := effects + [RunOperation(UpdateEntrySql, [Text(keywordHash), Text(url)])];
    }

    /** The body of `run`'s loop for one entry: extract, store the terms if any, mark the entry. */
    method ProcessEntry(e: FetchedEntry) returns (err: Option<Error>)
      modifies this
      ensures effects == old(effects) + EntryStep(keywordDir, e).0
      ensures err == EntryStep(keywordDir, e).1
    {
      var extracted := TextExtract.ExtractText(e.url, e.page);
      if extracted.Err? {
        return Some(extracted.error);
      }
      var terms := TermExtract.Terms(TermExtract.ExtractTerms(extracted.value.text, extracted.value.lang, false, e.analysis));
      assert EntryTerms(e) == Ok(terms);
      StoreTerms(e, terms);
      return None;
    }

    /** The rest of `run`'s loop body: the keyword file and the insert when there are terms, then the entry update. */
    method StoreTerms(e: FetchedEntry, terms: seq<string>)
      modifies this
      ensures effects == old(effects) + StoreEffects(keywordDir, e, terms)
    {
      ghost var store: seq<Effect> := [];
      if terms != [] {
        WriteKeywordFile(terms, e.uuid, e.url, e.now);
        UpdateKeywords(terms);
        store := [WriteFile(PathJoin(keywordDir, e.uuid), KeywordFileContent(e.url, e.now, terms)),
                  RunOperation(InsertTermsSql(terms), [])];
        AppendAssoc(old(effects), [store[0]], [store[1]]);
        assert [store[0]] + [store[1]] == store;
      }
      UpdateEntry(e.url, e.uuid);
      AppendAssoc(old(effects), store, [RunOperation(UpdateEntrySql, [Text(e.uuid), Text(e.url)])]);
    }

    /** `run`: each entry in turn; an extraction error ends the run. */
    method Run(items: seq<FetchedEntry>) returns (err: Option<Error>)
      modifies this
      ensures effects == old(effects) + RunEffects(keywordDir, items).0
      ensures err == RunEffects(keywordDir, items).1
    {
      var i := 0;
      assert items[..0] == [];
      while i < |items|
        invariant 0 <= i <= |items|
        invariant RunEffects(keywordDir, items[..i]).1 == None
        invariant effects == old(effects) + RunEffects(keywordDir, items[..i]).0
      {
        ghost var done := RunEffects(keywordDir, items[..i]).0;
        err := ProcessEntry(items[i]);
        RunContinues(items, (e: FetchedEntry) => EntryStep(keywordDir, e), i);
        AppendAssoc(old(effects), done, EntryStep(keywordDir, items[i]).0);
        if err.Some? {
          RunStops(items, (e: FetchedEntry) => EntryStep(keywordDir, e), i + 1);
          return;
        }
        i := i + 1;
      }
      assert items[..i] == items;
      return None;
    }
  }

  lemma AppendAssoc<T>(a: seq<T>, b: seq<T>, c: seq<T>)
    ensures a + b + c == a + (b + c)
  {
  }

  /** A step after the first error changes nothing: the run is what it was at the error. */
  lemma {:induction false} RunStops<T>(items: seq<T>, step: T -> (seq<Effect>, Option<Error>), j: nat)
    requires j <= |items|
    requires RunSteps(items[..j], step).1.Some?
    ensures RunSteps(items, step) == RunSteps(items[..j], step)
    decreases |items|
  {
    if j < |items| {
      var pre := items[..|items| - 1];
      assert pre[..j] == items[..j];
      RunStops(pre, step, j);
    } else {
      assert items[..j] == items;
    }
  }

  /** While no step has failed, each step adds its effects and its outcome to the run. */
  lemma RunContinues<T>(items: seq<T>, step: T -> (seq<Effect>, Option<Error>), i: nat)
    requires i < |items|
    requires RunSteps(items[..i], step).1 == None
    ensures RunSteps(items[..i + 1], step) ==
      (RunSteps(items[..i], step).0 + step(items[i]).0, step(items[i]).1)
  {
    var pre := items[..i + 1];
    assert pre[..|pre| - 1] == items[..i] && pre[|pre| - 1] == items[i];
  }

  /**
   * A run fails exactly when one of its steps fails. It then reports the
   * first failing step's error, and its effects are those of the steps
   * before that one followed by that step's own.
   */
  lemma {:induction false} RunStepsSpec<T>(items: seq<T>, step: T -> (seq<Effect>, Option<Error>))
    ensures RunSteps(items, step).1 == None <==> forall i :: 0 <= i < |items| ==> step(items[i]).1 == None
    ensures forall i ::
              (0 <= i < |items| && step(items[i]).1.Some? &&
               forall j :: 0 <= j < i ==> step(items[j]).1 == None) ==>
              RunSteps(items, step) ==
                (RunSteps(items[..i], step).0 + step(items[i]).0, step(items[i]).1)
    decreases |items|
  {
    if items != [] {
      var n := |items|;
      var pre := items[..n - 1];
      RunStepsSpec(pre, step);
      assert forall i :: 0 <= i < n - 1 ==> pre[i] == items[i];
      forall i | 0 <= i < n && step(items[i]).1.Some? && (forall j :: 0 <= j < i ==> step(items[j]).1 == None)
        ensures RunSteps(items, step) == (RunSteps(items[..i], step).0 + step(items[i]).0, step(items[i]).1)
      {
        if i < n - 1 {
          assert pre[..i] == items[..i];
          assert step(pre[i]).1.Some?;
        } else {
          assert items[..i] == pre;
        }
      }
    }
  }

  /** Without errors, the run's effects are each step's effects, one step after the other. */
  lemma {:induction false} RunStepsAppend<T>(items: seq<T>, more: seq<T>, step: T -> (seq<Effect>, Option<Error>))
    requires RunSteps(items, step).1 == None
    ensures RunSteps(items + more, step) ==
      (RunSteps(items, step).0 + RunSteps(more, step).0, RunSteps(more, step).1)
    decreases |more|
  {
    if more == [] {
      assert items + more == items;
      assert RunSteps(items, step).0 + [] == RunSteps(items, step).0;
    } else {
      var m := more[..|more| - 1];
      var all := items + more;
      assert all[..|all| - 1] == items + m;
      assert all[|all| - 1] == more[|more| - 1];
      RunStepsAppend(items, m, step);
      AppendAssoc(RunSteps(items, step).0, RunSteps(m, step).0, step(more[|more| - 1]).0);
    }
  }

  // ---------------------------------------------------------------------
  // The service
  // ---------------------------------------------------------------------

  /** `ParserService`: the polling period and the parser it runs on each tick. */
  class ParserService {
    var interval: int
    const entryParser: EntryParser

    constructor(keywordDir: string, interval: int := 30)
      ensures this.interval == PollingInterval(interval)
      ensures fresh(entryParser) && entryParser.keywordDir == keywordDir && entryParser.effects == []
    {
      this.interval := interval / 60;
      entryParser := new EntryParser(keywordDir);
      new;
      if this.interval <= 60 {
        this.interval := 60;
      }
    }
  }

  // ---------------------------------------------------------------------
  // Properties
  // ---------------------------------------------------------------------

  /**
   * A SQL reader recovers the term from its escaped literal: the doubled
   * quotes read back as single ones and the closing quote ends the term.
   */
  lemma {:induction false} ReadQuotedEscape(k: string, rest: string)
    requires rest == [] || rest[0] != '\''
    ensures ReadQuoted(Escape(k) + "'" + rest) == Some((k, rest))
    decreases |k|
  {
    if k == [] {
      assert Escape(k) + "'" + rest == "'" + rest;
      assert ("'" + rest)[1..] == rest;
    } else {
      var tail := Escape(k[1..]) + "'" + rest;
      ReadQuotedEscape(k[1..], rest);
      EscapeStep(k, rest);
      ReadQuotedStep(k[0], tail, k[1..], rest);
      assert [k[0]] + k[1..] == k;
    }
  }

  /** Escaping a non-empty term: its first character escaped, then the rest. */
  lemma EscapeStep(k: string, rest: string)
    requires k != []
    ensures Escape(k) + "'" + rest == (if k[0] == '\'' then "''" else [k[0]]) + (Escape(k[1..]) + "'" + rest)
  {
  }

  /** Reading one more escaped character in front of a literal. */
  lemma ReadQuotedStep(c: char, tail: string, v: string, rest: string)
    requires ReadQuoted(tail) == Some((v, rest))
    ensures ReadQuoted((if c == '\'' then "''" else [c]) + tail) == Some(([c] + v, rest))
  {
    if c == '\'' {
      assert ("''" + tail)[2..] == tail;
    } else {
      assert ([c] + tail)[1..] == tail;
    }
  }

  /** A row reads back as its term, whatever follows it. */
  lemma ParseTermTuple(k: string, rest: string)
    ensures ParseTuple(TermTuple(k) + rest) == Some((k, rest))
  {
    var s := TermTuple(k) + rest;
    var after := ", false)" + rest;
    assert s == "('" + (Escape(k) + "'" + after);
    assert s[2..] == Escape(k) + "'" + after;
    ReadQuotedEscape(k, after);
    assert after[..8] == ", false)" && after[8..] == rest;
  }

  /** The rows of a non-empty keyword list read back as that list. */
  lemma {:induction false} ParseTermTuples(ks: seq<string>)
    requires ks != []
    ensures ParseTupleList(Join(TermTuples(ks), ", ")) == Some(ks)
    decreases |ks|
  {
    var rows := TermTuples(ks);
    if |ks| == 1 {
      ParseTermTuple(ks[0], "");
      assert TermTuple(ks[0]) + "" == TermTuple(ks[0]);
      assert [ks[0]] == ks;
    } else {
      var tail := Join(rows[1..], ", ");
      assert rows[1..] == TermTuples(ks[1..]);
      ParseTermTuples(ks[1..]);
      assert Join(rows, ", ") == TermTuple(ks[0]) + (", " + tail);
      ParseTermTuple(ks[0], ", " + tail);
      ParseTupleListStep(TermTuple(ks[0]) + (", " + tail), ks[0], tail);
      assert [ks[0]] + ks[1..] == ks;
    }
  }

  /** A row followed by `, ` and more rows reads as that row's term and then theirs. */
  lemma ParseTupleListStep(s: string, k: string, tail: string)
    requires ParseTuple(s) == Some((k, ", " + tail))
    ensures ParseTupleList(s) ==
      match ParseTupleList(tail) case None => None case Some(ks) => Some([k] + ks)
  {
    assert (", " + tail)[..2] == ", " && (", " + tail)[2..] == tail;
  }

  /**
   * `update_keywords`' escaping is a true escape: the statement carries
   * every keyword, in order, and reading its rows back gives the list.
   */
  lemma InsertTermsRoundTrip(keywords: seq<string>)
    ensures ParseInsertTerms(InsertTermsSql(keywords)) == Some(keywords)
  {
    var body := Join(TermTuples(keywords), ", ");
    var sql := InsertTermsSql(keywords);
    var p, c := |InsertPrefix|, |ConflictClause|;
    assert sql[..p] == InsertPrefix;
    assert sql[|sql| - c..] == ConflictClause;
    assert sql[p..|sql| - c] == body;
    if keywords != [] {
      ParseTermTuples(keywords);
      assert TermTuples(keywords)[0] in TermTuples(keywords);
      assert |body| > 0 by {
        if |keywords| > 1 {
          assert body == TermTuple(keywords[0]) + ", " + Join(TermTuples(keywords)[1..], ", ");
        }
      }
    }
  }

  /** Different keyword lists never give the same statement. */
  lemma InsertTermsInjective(a: seq<string>, b: seq<string>)
    requires InsertTermsSql(a) == InsertTermsSql(b)
    ensures a == b
  {
    InsertTermsRoundTrip(a);
    InsertTermsRoundTrip(b);
  }

  /**
   * Read line by line, the keyword file is the url header, a blank line,
   * the time header, then the keywords in order.
   */
  lemma KeywordFileLines(url: string, now: string, keywords: seq<string>)
    requires '\n' !in url && '\n' !in now
    requires forall k :: k in keywords ==> '\n' !in k
    ensures SplitLines(KeywordFileContent(url, now, keywords)) == ["# " + url, "", "# " + now] + keywords
    ensures |SplitLines(KeywordFileContent(url, now, keywords))| == |keywords| + 3
  {
    var header := ["# " + url, "", "# " + now];
    var last := ["# " + now];
    assert header[1..] == [""] + last && ([""] + last)[1..] == last && last[1..] == [];
    assert Terminated(last) == "# " + now + "\n";
    assert Terminated([""] + last) == "\n" + "# " + now + "\n";
    assert Terminated(header) == "# " + url + "\n" + ("\n" + "# " + now + "\n");
    assert Terminated(header) == "# " + url + "\n\n" + "# " + now + "\n";
    TerminatedAppend(header, keywords);
    LinesOfTerminated(header + keywords);
  }

  /**
   * One entry: it fails exactly when text extraction fails; otherwise it
   * always ends with the entry update naming its keyword file, and it
   * writes the keyword file and inserts the terms exactly when there are
   * terms, the insert carrying exactly those terms.
   */
  lemma EntryEffectsSpec(keywordDir: string, e: FetchedEntry)
    ensures EntryEffects(keywordDir, e).Err? <==> TextExtract.ExtractText(e.url, e.page).Err?
    ensures EntryEffects(keywordDir, e).Ok? ==>
      var es, terms := EntryEffects(keywordDir, e).value, EntryTerms(e).value;
      |es| == (if terms == [] then 1 else 3) &&
      es[|es| - 1] == RunOperation(UpdateEntrySql, [Text(e.uuid), Text(e.url)]) &&
      (terms != [] ==>
        es[0] == WriteFile(PathJoin(keywordDir, e.uuid), KeywordFileContent(e.url, e.now, terms)) &&
        es[1].RunOperation? && ParseInsertTerms(es[1].sql) == Some(terms))
  {
    if EntryTerms(e).Ok? {
      InsertTermsRoundTrip(EntryTerms(e).value);
    }
  }
}
