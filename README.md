# rss_keyword_collector in Dafny

A model of the three services of rss_keyword_collector, with proofs about
them:

- **FeedService.** Its `FeedCollector` turns a fetched RSS page into a batch
  of entry records keyed by entry title, and issues the statements that
  update a feed's channel metadata and insert each entry.
- **ParserService.** Its `EntryParser` walks the unscraped entries. For each
  one it does the following:
  - routes the entry's URL to a text extractor by its escaped host
    (`get_netloc`): the BBC extractor for `www_bbc_com`, the generic one for
    any other host;
  - extracts keywords and named entities through a per-language term
    extractor;
  - writes a keyword file named by a fresh UUID, inserts the terms, and marks
    the entry as scraped.
- **ReportingService.** Its `ReporterWriter` queries the censored and
  uncensored terms and writes each list to `<state>.report`.
  `set_censored` issues the update that flags a term.

Each service polls every `int(interval / 60)` seconds, raised to 60 when it
is 60 or less.

Modules, one per file:

| file | module | models |
|---|---|---|
| `outcomes.dfy` | `Outcomes` | `Option`, `Result` and the errors the code raises |
| `strings.dfy` | `Strings` | the Python string operations used: `lower`, `replace`, `strip`, `split`, `splitlines`, `join`, slicing, `os.path.join` |
| `polling.dfy` | `Polling` | the polling period shared by the three services |
| `effects.dfy` | `Effects` | files written and statements issued, kept as a log |
| `netloc.dfy` | `Netloc` | `get_netloc`, over a model of Python 2.7's `urlparse` |
| `text_extract.dfy` | `TextExtract` | `ExtractText`: dispatch, the generic clean-up, the BBC extractor |
| `term_extract.dfy` | `TermExtract` | `ExtractTerms`: dispatch, keyword normalisation, `get_entities`, `terms` |
| `entry_parser.dfy` | `EntryParser` | `EntryParser` and `ParserService` |
| `feed.dfy` | `Feed` | `FeedCollector` and `FeedService` |
| `reporting.dfy` | `Reporting` | `ReporterWriter` and `ReportingService` |

Objects that do their work by side effect are Dafny classes:

- `EntryParser.EntryParser` and `Reporting.ReporterWriter`.
- Each keeps an `effects` log. A `WriteFile`, `RunOperation` or `RunQuery` is
  appended for every file written and every statement issued, in issue order.
- The content a file holds afterwards is the last write to its path
  (`Effects.LastWrite`), because both writers open their files with mode
  `"w+"`, which truncates.
- Each method is proved against a function on values: `RunEffects`,
  `StoreEffects`, `UpdateEffects`, `StatesEffects`. The properties are proved
  about those functions.

Loops in the source are methods with loop invariants:

- `run`, `update_keywords`, `write_keyword_file`, `parse_entries`,
  `get_entities`, `extractor_www_bbc_com` and `_write_term_file`.

The code is Python 2, and the model follows it:

- `int(interval / 60)` is floor division.
- `urlparse` is Python 2.7's.
- `path.join` is POSIX's.

Third-party parsers and analysers are inputs, not models:

- A parsed page is a `TextExtract.Document`: visible text, the `<title>`'s
  text and its `.string`, `lang` attribute, BBC heading and body nodes.
- A parsed feed is its channel dictionary and its list of entry dictionaries.
- Tokenizer output, stop-word lists and entity spans arrive as a
  `TermExtract.Analysis`.
- `uuid4().hex` and `str(datetime.now())` are parameters.
- The database's answer to a query is a function from the statement to its
  rows.

### Behaviours of the code the model keeps

- **`get_netloc("not a url")`.** It returns `"not a url"`, the first segment
  of the path, so the URL goes to the generic extractor
  (`Netloc.GetNetlocOfPlainText`). Only an empty host raises the
  "not parsable" `ValueError`.
- **An entry without a title.** `entry["title"]` raises `KeyError`, which
  ends the whole batch (`Feed.KeyByTitleFails`).
- **What is cut to 512 characters.** The *feed* URL stored under `"url"` is
  cut to 512 characters; the entry's link is never cut
  (`Feed.UpdateBatchedEntry`).
- **`term_file` when no terms are found.** It is always bound to the entry's
  UUID (`EntryParser.EntryEffectsSpec`).
- **A missing BBC title or `lang`.** Without both an `h1` heading and a
  `<title>`, or without a `lang` attribute, the BBC extractor raises
  (`TextExtract.ExtractBbc`). The article body is the one recoverable part:
  a missing body and a body without `p` elements (the `ValueError` the
  extractor raises and catches itself) both give an empty text
  (`TextExtract.ArticleTextSpec`), and so does a single `p` element with an
  empty text.
- **A missing generic title.** The generic extractor reads `.string` of the
  `<title>`: a page without a `<title>`, or whose `<title>` holds no single
  string (an empty one, say), raises `AttributeError`
  (`TextExtract.ExtractGenericText`).
- **A failure during `run`.** An exception inside `run`'s loop leaves the
  rest of the entries unprocessed (`EntryParser.RunStepsSpec`).
- **The keyword file header.** The url header is followed by a blank line,
  `"# <url>\n\n"` (`EntryParser.KeywordFileLines`).

## Model

| member | source | states |
|---|---|---|
| Polling.PollingIntervalSpec | rss_keyword_collector/parse.py:49-51 | the period is at least 60; it is `interval / 60` exactly when the interval is at least 3600, and 60 exactly when it is under 3660 |
| Polling.PollingIntervalMonotonic | rss_keyword_collector/feed.py:40-42 | a longer configured interval never gives a shorter period |
| Polling.DefaultIntervals | rss_keyword_collector/reporting.py:30-44 | the default intervals of 30 and 600 seconds both poll every 60 |
| EntryParser.ParserService.constructor | rss_keyword_collector/parse.py:37-62 | the service's period is the polling period of its interval, and its fresh entry parser has the keyword directory and no effects yet |
| Feed.FeedService.constructor | rss_keyword_collector/feed.py:28-54 | the period is the polling period of the interval |
| Reporting.ReportingService.constructor | rss_keyword_collector/reporting.py:30-55 | the period is the polling period of the interval, and the fresh writer has the output directory and no effects yet |
| Strings.LowerChar | rss_keyword_collector/parse.py:100 | an upper-case ASCII letter becomes the character 32 code points higher, its lower-case form; every other character is kept; the result is never upper case |
| Strings.Lower | rss_keyword_collector/parse.py:384 | same length, and each character is lowered independently |
| Strings.ReplaceChar | rss_keyword_collector/parse.py:100 | same length; exactly the occurrences of `from` become `to` |
| Strings.Strip | rss_keyword_collector/parse.py:309 | the result is a slice `s[a..b]` of the input with only whitespace before `a` and after `b`; it has no whitespace at either end, is no longer than the input, and adds no character or double space the input lacked |
| Strings.SplitOn | rss_keyword_collector/parse.py:311 | `split` always gives at least one piece |
| Strings.JoinSplitOn | rss_keyword_collector/parse.py:311 | joining the pieces of `split(sep)` with `sep` gives the string back |
| Strings.SplitOnFirstIsPrefix | rss_keyword_collector/parse.py:93 | the first piece of `split("/")` is a prefix of the text |
| Strings.SplitOnKeepsAbsent | rss_keyword_collector/parse.py:311 | a character absent from the text is absent from every piece |
| Strings.SplitOnCharRemovesSep | rss_keyword_collector/parse.py:93 | no piece of a split on one character contains that character |
| Strings.SplitOnDoubleSpace | rss_keyword_collector/parse.py:311 | no piece of `split("  ")` contains a double space |
| Strings.SplitOnJoin | rss_keyword_collector/parse.py:313 | splitting a join on a character that is absent from the parts gives the parts back |
| Strings.LinesOfJoin | rss_keyword_collector/parse.py:313 | `'\n'.join` of non-empty one-line strings, read back with `splitlines`, gives the same strings |
| Strings.LinesOfTerminated | rss_keyword_collector/parse.py:147-148 | strings written one per line with `'\n'` after each read back as the same strings |
| Strings.JoinLinesNoDoubleSpace | rss_keyword_collector/parse.py:313 | joining parts that have no double space by `'\n'` gives no double space |
| Strings.JoinKeepsAbsent | rss_keyword_collector/parse.py:313 | joining by `'\n'` adds no other character |
| Strings.JoinAppend | rss_keyword_collector/parse.py:157-164 | appending one part to a join adds the separator and the part, and only the part when the join was empty |
| Strings.Truncate | rss_keyword_collector/feed.py:129-131 | `s[0:n]` is a prefix of `s` no longer than `n`: all of `s` when it fits, else exactly `n` characters |
| Strings.PathJoinSpec | rss_keyword_collector/parse.py:143 | a relative name ends the joined path and the directory starts it; two names give the same path exactly when they are equal |
| Strings.IndexOf | rss_keyword_collector/parse.py:93 | the first position of the character, or the length when it is absent |
| Strings.IndexOfAny | rss_keyword_collector/parse.py:85 | the first position of any of the characters, or the length |
| Effects.LastWrite | rss_keyword_collector/reporting.py:79 | the content found is written to that path by some effect, and there is none exactly when no effect writes the path |
| Effects.LastWriteSpec | rss_keyword_collector/reporting.py:79 | a file opened with `"w+"` holds the content of its last write: a write of that content at some index with no write of the path after it; none exactly when no effect writes the path |
| Effects.LastWriteSkips | rss_keyword_collector/reporting.py:79 | effects that do not write a path leave its content unchanged |
| Netloc.LastIndexOf | rss_keyword_collector/parse.py:85 | the position of the last occurrence of the character |
| Netloc.WithoutParams | rss_keyword_collector/parse.py:85 | the path is cut at the first `;` after its last `/` (after the start when it has no `/`): the result is a prefix of the path, holds no `;` from that point on, and when shorter is followed in the path by `;` |
| Netloc.PathPart | rss_keyword_collector/parse.py:85 | the tail is cut at its first `#` or `?`: the result is a prefix of the tail holding neither, and when shorter is followed in the tail by `?` or `#` |
| Netloc.EscapeHost | rss_keyword_collector/parse.py:100 | same length, no `.`, no upper-case letter; each `.` becomes `_` and every other character is lowered |
| Netloc.GetNetlocSpec | rss_keyword_collector/parse.py:74-101 | get_netloc fails exactly when urlparse fails or the raw host is empty, and only with those two errors; otherwise the key is non-empty and is the escaped raw host |
| Netloc.EscapeHostIdempotent | rss_keyword_collector/parse.py:100 | escaping an escaped key changes nothing |
| Netloc.HostOfAbsoluteUrl | rss_keyword_collector/parse.py:85-101 | `scheme://host<rest>` parses with netloc `host`, and a non-empty host is escaped to the key |
| Netloc.NetlocOfHost | rss_keyword_collector/parse.py:85-91 | after `//`, the netloc runs to the first `/`, `?` or `#` |
| Netloc.HostOfRelativeUrl | rss_keyword_collector/parse.py:85-101 | a URL without a scheme has an empty netloc, and the key comes from the first path segment; an empty segment is the "not parsable" error |
| Netloc.RelativeUrlParts | rss_keyword_collector/parse.py:85-93 | without `:` or a leading `//` the scheme and netloc are empty and the text is the path, which starts with the host |
| Netloc.NoSchemeWithoutColon | rss_keyword_collector/parse.py:85 | without a `:` urlparse finds no scheme |
| Netloc.PathPartKeepsHost | rss_keyword_collector/parse.py:85-93 | cutting query and fragment keeps the host and the `/` after it |
| Netloc.FirstSegmentOfPath | rss_keyword_collector/parse.py:93 | `path.split("/")[0]` of such a path is the host |
| Netloc.EscapeBbcHost | rss_keyword_collector/parse.py:267-269 | `www.bbc.com`, in any case, escapes to `www_bbc_com`, the name the BBC extractor is registered under |
| Netloc.EscapeUnknownHost | rss_keyword_collector/parse.py:100 | escaping two other example hosts |
| Netloc.GetNetlocOfBbcUrl | rss_keyword_collector/parse.py:74-101 | `http://www.bbc.com/news/world-123` has key `www_bbc_com` |
| Netloc.GetNetlocOfUnknownSite | rss_keyword_collector/parse.py:74-101 | `https://unknown-site.example/a` has key `unknown-site_example` |
| Netloc.GetNetlocWithoutScheme | rss_keyword_collector/parse.py:90-93 | `www.BBC.com/news` (no scheme) still has key `www_bbc_com` |
| Netloc.GetNetlocOfPlainText | rss_keyword_collector/parse.py:90-100 | `not a url` is accepted with key `not a url` |
| Netloc.GetNetlocWithoutHost | rss_keyword_collector/parse.py:96-99 | `""` and `/news/world` raise the "not parsable" error |
| TextExtract.ResolveTextSpec | rss_keyword_collector/parse.py:267-276 | the dispatch fails exactly when get_netloc fails; it picks the BBC extractor exactly for key `www_bbc_com`, and the generic one for every other key |
| TextExtract.ResolveBbcUrl | rss_keyword_collector/parse.py:267-276 | a BBC article URL goes to the BBC extractor |
| TextExtract.ResolveUnknownSite | rss_keyword_collector/parse.py:267-276 | `https://unknown-site.example/a` goes to the generic extractor |
| TextExtract.LinePhrasesSpec | rss_keyword_collector/parse.py:309-311 | every phrase of a line is trimmed and has no double space, and a line without a break gives phrases without one |
| TextExtract.PhrasesSpec | rss_keyword_collector/parse.py:309-311 | every phrase of `splitlines` lines is trimmed, has no double space and no line break |
| TextExtract.NonEmptySpec | rss_keyword_collector/parse.py:313 | `if chunk` keeps exactly the non-empty chunks, in order, each as many times as it occurs: the multiset of the chunks with the empty string removed |
| TextExtract.NonEmptyAppend | rss_keyword_collector/parse.py:313 | the filter works chunk by chunk: the kept chunks of a concatenation are the kept chunks of each part, in order, and a lone chunk is kept exactly when it is non-empty |
| TextExtract.SplitLinesHasNoBreak | rss_keyword_collector/parse.py:309 | no line of `splitlines` holds a line break |
| TextExtract.CleanUpSpec | rss_keyword_collector/parse.py:308-313 | each output line is a non-empty, trimmed chunk without double spaces; the output read back line by line is the chunks; the chunks are, in order, the non-empty phrases of the input lines, each as many times as it occurs |
| TextExtract.ExtractGenericText | rss_keyword_collector/parse.py:278-314 | generic extraction fails exactly when the `<title>` has no `.string` or the page has no `lang`, with the missing title reported first; otherwise the title is that string, the language is the attribute, and the text read back line by line is the cleaned-up chunks of the visible text |
| TextExtract.ArticleTextSpec | rss_keyword_collector/parse.py:332-342 | no body or no paragraph gives an empty text; when every paragraph is non-empty and holds no line break, the text read back line by line is the paragraphs in document order |
| TextExtract.ParagraphsSpec | rss_keyword_collector/parse.py:334-336 | every `p` element's text is a paragraph, every paragraph is the text of some `p` element, and there are no more paragraphs than elements |
| TextExtract.ParagraphsAppend | rss_keyword_collector/parse.py:334-336 | paragraphs are collected node by node: those of a concatenation are those of each part, in order, and a lone node gives its text exactly when it is a `p` |
| TextExtract.ExtractBbc | rss_keyword_collector/parse.py:317-345 | the loop over the body's descendants computes the BBC extraction: title from the `h1` or else `<title>`, an error without a title or a `lang`, and an empty text without a body or paragraphs |
| TermExtract.WordChars | rss_keyword_collector/parse.py:386-387 | `re.sub('\W+', '', s)` keeps only word characters of `s`, and is no longer than `s` |
| TermExtract.WordCharsAppend | rss_keyword_collector/parse.py:386-387 | the substitution works character by character: the result for a concatenation is the result for each part, in order, and a single character is kept exactly when it is a word character |
| TermExtract.Normalized | rss_keyword_collector/parse.py:384-387 | one normalised token per token, in order: each is its token lower-cased and stripped of non-word characters |
| TermExtract.NormalizeTokenSpec | rss_keyword_collector/parse.py:384-387 | a normalised token is lower case and made of word characters |
| TermExtract.DedupSpec | rss_keyword_collector/parse.py:388 | `set(xs)` as a list holds every element of `xs` once and nothing else |
| TermExtract.FilterSpec | rss_keyword_collector/parse.py:389 | a comprehension with a condition keeps exactly the elements that pass, and keeps them unique |
| TermExtract.KeywordsSpec | rss_keyword_collector/parse.py:380-447 | keywords have no duplicates; a word is a keyword exactly when it is a normalised token longer than one character and not a removed stop word; every keyword is lower case and made of word characters |
| TermExtract.ExtractTermsSpec | rss_keyword_collector/parse.py:349-374 | the default language `english` uses the generic extractor; `en` and `fa` use their own, removing stop words only when asked; any other language uses the generic one, which never removes them; entities come from `get_entities` with threshold 50 |
| TermExtract.Terms | rss_keyword_collector/parse.py:376-378 | the terms are the keywords followed by the entities |
| TermExtract.TermsSpec | rss_keyword_collector/parse.py:376-452 | there are as many terms as keywords and entities together, and a text under 50 characters has only its keywords as terms |
| TermExtract.GetEntities | rss_keyword_collector/parse.py:449-458 | a text shorter than the threshold gives no entity; otherwise there is one entity per span, its words joined by spaces |
| TermExtract.WordCharsOfWord | rss_keyword_collector/parse.py:386-387 | a token of word characters passes unchanged |
| TermExtract.WordCharsOfPunctuation | rss_keyword_collector/parse.py:386-387 | a token of punctuation becomes empty |
| TermExtract.NormalizeWord | rss_keyword_collector/parse.py:384-387 | normalising a token of word characters lowers it |
| TermExtract.NormalizeCapitalised | rss_keyword_collector/parse.py:384-387 | `The` normalises to `the` |
| TermExtract.NormalizePunctuation | rss_keyword_collector/parse.py:384-387 | `.` normalises to the empty token |
| TermExtract.KeywordsOfRepeatedWord | rss_keyword_collector/parse.py:384-389 | two tokens that normalise alike give one keyword |
| TermExtract.KeywordsIgnoreCase | rss_keyword_collector/parse.py:384-389 | `The` and `the` are one keyword |
| EntryParser.Escape | rss_keyword_collector/parse.py:160 | doubling quotes never shortens a keyword and keeps a keyword without quotes |
| EntryParser.TermTuples | rss_keyword_collector/parse.py:157-164 | one row per keyword |
| EntryParser.ReadQuoted | rss_keyword_collector/parse.py:160 | reading a quoted SQL literal consumes at least its closing quote |
| EntryParser.ParseTuple | rss_keyword_collector/parse.py:160 | reading a row consumes input |
| EntryParser.ReadQuotedEscape | rss_keyword_collector/parse.py:160 | a keyword with its quotes doubled and a closing quote reads back as the keyword |
| EntryParser.ParseTermTuple | rss_keyword_collector/parse.py:160 | a `('<k>', false)` row reads back as `k`, whatever follows |
| EntryParser.ParseTermTuples | rss_keyword_collector/parse.py:157-164 | the `, `-joined rows of a non-empty list read back as the list |
| EntryParser.InsertTermsRoundTrip | rss_keyword_collector/parse.py:150-171 | the insert statement carries every keyword, in order; reading its rows back gives the list, and no rows for the empty list |
| EntryParser.InsertTermsInjective | rss_keyword_collector/parse.py:150-166 | different keyword lists never give the same statement |
| EntryParser.KeywordFileLines | rss_keyword_collector/parse.py:142-148 | read line by line, the keyword file is `# <url>`, a blank line, `# <time>`, then the keywords in order |
| EntryParser.EntryParser.constructor | rss_keyword_collector/parse.py:104-107 | the parser has the keyword directory and no effects yet |
| EntryParser.EntryParser.WriteKeywordFile | rss_keyword_collector/parse.py:142-148 | the loop writes the keyword file content to `<keyword_dir>/<hash>` and does nothing else |
| EntryParser.EntryParser.UpdateKeywords | rss_keyword_collector/parse.py:150-171 | the loop with its first-row flag builds the insert statement, which is issued and nothing else |
| EntryParser.EntryParser.UpdateEntry | rss_keyword_collector/parse.py:173-180 | one update binding the hash, then the url |
| EntryParser.EntryParser.ProcessEntry | rss_keyword_collector/parse.py:116-139 | one loop iteration does the entry's step: its effects, or no effect and the extraction error |
| EntryParser.EntryParser.StoreTerms | rss_keyword_collector/parse.py:129-139 | with terms: the keyword file, then the insert; always last: the entry update |
| EntryParser.EntryParser.Run | rss_keyword_collector/parse.py:113-139 | the loop does the entries' steps in order and stops at the first error |
| EntryParser.EntryEffectsSpec | rss_keyword_collector/parse.py:116-139 | an entry fails exactly when text extraction fails; otherwise it ends with the update naming its UUID; it writes the keyword file and inserts exactly its terms exactly when there are terms |
| EntryParser.RunStops | rss_keyword_collector/parse.py:113-139 | after the first error, later entries change nothing |
| EntryParser.RunContinues | rss_keyword_collector/parse.py:116-139 | while nothing has failed, each entry adds its effects and its outcome |
| EntryParser.RunStepsSpec | rss_keyword_collector/parse.py:113-139 | a run fails exactly when some entry fails; then it reports the first failure, after the effects of the entries before it |
| EntryParser.RunStepsAppend | rss_keyword_collector/parse.py:113-139 | a run without errors over two lists is the run over the first, then the run over the second |
| Feed.Get | rss_keyword_collector/feed.py:96 | `d.get(key, default)` is the value when the key is present, else the default |
| Feed.UpdateFeedSpec | rss_keyword_collector/feed.py:88-107 | `channel_info` has exactly the nine channel items, each the channel's value or `""`; the update binds title, language, description, then the url |
| Feed.WithChannel | rss_keyword_collector/feed.py:134-135 | copying the channel items adds exactly those keys |
| Feed.BuildRecord | rss_keyword_collector/feed.py:122-135 | one iteration of `parse_entries`' loop builds the entry's record |
| Feed.EntryRecordSpec | rss_keyword_collector/feed.py:123-131 | a record has exactly the eleven fields; description, feed url and title are prefixes of the originals cut to 1000, 512 and 500 |
| Feed.EntryRecordDefaults | rss_keyword_collector/feed.py:123-135 | language is the channel's or `""`; `scraped` is the run's time; `pubDate` is the entry's own or the run's time; the other items are the entry's or `""` |
| Feed.ParseEntries | rss_keyword_collector/feed.py:113-136 | the loop computes the batch: records keyed by title, in feed order, or the missing-title error |
| Feed.KeyByTitleStops | rss_keyword_collector/feed.py:122-123 | once an entry lacks a title the batch fails, whatever follows |
| Feed.KeyByTitleFails | rss_keyword_collector/feed.py:122-123 | keying fails exactly when some entry has no title |
| Feed.KeyByTitleKeys | rss_keyword_collector/feed.py:122-123 | a successful batch is keyed by exactly the distinct titles |
| Feed.KeyByTitleLast | rss_keyword_collector/feed.py:122-123 | under each title the batch holds the last entry with that title |
| Feed.BatchEntriesSpec | rss_keyword_collector/feed.py:113-136 | `parse_entries` fails exactly when some entry lacks a title; otherwise one record per distinct title, the record of the last entry with that title |
| Feed.UpdateBatchedEntry | rss_keyword_collector/feed.py:138-153 | the insert for a batched record binds the entry's link, the channel language, the stored description and title, the publication date and the truncated feed url |
| Reporting.GetQuerySpec | rss_keyword_collector/reporting.py:94-106 | exactly `censored` and `uncensored` have a clause, and their clauses differ; the select statement exists exactly then and is `SELECT term FROM terms WHERE <clause>` |
| Reporting.CensoredFlagSpec | rss_keyword_collector/reporting.py:109-115 | a state is accepted exactly when it compares equal to True or False, and the bound flag reads back as that boolean |
| Reporting.SetCensoredSpec | rss_keyword_collector/reporting.py:109-121 | the update fails exactly for other states; it binds the flag, then the term; with no state it binds `true` |
| Reporting.ReportMatchesFlag | rss_keyword_collector/reporting.py:101-113 | the report of a state selects the terms that `set_censored` marks with the matching boolean |
| Reporting.RowTerms | rss_keyword_collector/reporting.py:81-83 | each row's first column, in order |
| Reporting.TermFileLines | rss_keyword_collector/reporting.py:79-83 | read line by line, a report is `# <time>` and then the terms in query order |
| Reporting.ReportPathsDistinct | rss_keyword_collector/reporting.py:78 | the two reports are two different files inside the output directory |
| Reporting.ReporterWriter.constructor | rss_keyword_collector/reporting.py:68-73 | the writer has the output directory and no effects yet |
| Reporting.ReporterWriter.WriteTermFile | rss_keyword_collector/reporting.py:75-83 | no rows means no effect; otherwise the loop writes the report content to `<state>.report` |
| Reporting.ReporterWriter.Update | rss_keyword_collector/reporting.py:90-97 | an unknown state fails with no effect; otherwise the query, then the report when there are rows |
| Reporting.ReporterWriter.UpdateFiles | rss_keyword_collector/reporting.py:85-88 | updates `censored`, then `uncensored` |
| Reporting.StatesEffectsSplit | rss_keyword_collector/reporting.py:85-88 | `update_files` does `update("censored")`, then `update("uncensored")` |
| Reporting.UpdateOwnReport | rss_keyword_collector/reporting.py:75-97 | after `update(state)` its report holds the rows found, or what it held before when there were none |
| Reporting.UpdateOtherReport | rss_keyword_collector/reporting.py:75-97 | `update(state)` leaves every other file unchanged |
| Reporting.UpdateFilesSpec | rss_keyword_collector/reporting.py:85-97 | the censored query comes before the uncensored one, and afterwards each report holds its state's rows, or its previous content when there were none |

## Left out

- TextExtract.ExtractGeneric: the title it returns is `.string` of the `<title>` in the page as first parsed. The code returns `.string` of the page re-parsed after `prettify` (parse.py:314), which is not modelled and may differ in whitespace. `run` never reads the title.
- Strings.SplitOn: its own contract states only that there is at least one piece. That the pieces joined give the string back is `Strings.JoinSplitOn`; that no piece holds a one-character separator is `Strings.SplitOnCharRemovesSep`.
- Effects.LastWrite: its own contract states only that the content found is some write of the path. That it is the last one is `Effects.LastWriteSpec`, kept apart so that proofs using the function stay small.
- TermExtract.WordChars: its own contract states only that it keeps word characters and is no longer. Which characters it keeps, and in which order, is `TermExtract.WordCharsAppend`.

- Twisted is outside the model: the reactor, `LoopingCall`, `inlineCallbacks`, Deferreds and `stopService`. Each service keeps only its polling period, and each `yield` is one step in order.
- `update(state)` returns nothing, so `update_files` does not wait for the first report. The model orders both queries and writes as issued, the censored report first.
- The database is outside the model. Statements are recorded with their parameters; conflicts, `ON CONFLICT DO NOTHING` and the rows they change are not.
- `get_unparsed_entries` and `get_feed_list` are not modelled. `run` receives the list of entries instead.
- `getPage`, feedparser, BeautifulSoup (comment, script and style removal, `prettify`), the NLTK and hazm tokenizers, the stop-word corpora and polyglot are not modelled. They are inputs: a `Document`, dictionaries, an `Analysis`.
- A download error is not modelled, because the page is an input.
- The order of `FeedCollector.run` is not modelled: each feed in turn, `parse_entries`, then `update_entries` for each batched record in dictionary order. So is its passing of the row tuple `url` as the feed URL. The parts, `parse_entries` and `update_entries`, are modelled with the feed URL as a string.
- `query_feeds` is not modelled: it iterates a set that is never filled and has no caller in the core.
- `EntryParser.update_feed` and `EntryParser.update_entries` are not modelled: they are copies in parse.py that `run` never calls.
- `EntryParser.parse` is not modelled: its body is `pass`.
- Python's `set` iterates in hash order. `TermExtract.Dedup` takes the order of first occurrence, so the order of keywords is a modelling choice. Every property about keywords holds whatever the order.
- `lower()` and `\w` are ASCII-exact. Every non-ASCII character counts as a word character, and lowering leaves it unchanged. `strip()` uses the ASCII and Latin-1 whitespace.
- `splitlines()` breaks lines on `'\n'` only.
- `.decode("utf-8")` of the report rows is not modelled; rows are strings already.
- `environ` and `mkdir` are not modelled: the keyword and report directories are parameters, and the directory is not created.
- `datetime.now()` is one value per entry in `run`, and one per call of `parse_entries` or `update(state)`. The source may read the clock several times within one.
- `_get_query` formats the undefined name `query`, so an unknown state raises `NameError`, not the `ValueError` it was written to raise. Both end `update` before any effect, and the model reports it as `UnknownState`.
- `set_censored` is modelled with its statement exactly as written, including the comma before `WHERE`. The effect of running that statement is not modelled.
- A float `state` such as `1.0` is not modelled. It compares equal to True in Python, but `PyValue` covers bools, ints, strings and None.
